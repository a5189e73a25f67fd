/** The record the product API returns for one catalog entry. */
module ProductModel {
  import opened Wrappers

  /** Aggregate review score; carried along but read by nothing in this model. */
  datatype Rating = Rating(rate: real, count: int)

  /**
   * One product. The price is a decimal number that the listing's comparator
   * reads through `?? 0`, so a missing price is kept representable here.
   */
  datatype Product = Product(
    id: int,
    title: string,
    price: Option<real>,
    description: string,
    category: string,
    image: string,
    rating: Rating)
}
