/**
 * The product API adapter. A request's answer is an input value: either a
 * fault raised by the transport, or an HTTP status with the body that
 * parsing it as JSON would give.
 */
module Api {
  import opened Wrappers
  import opened Text
  import opened ProductModel

  const ApiUrl: string := "https://fakestoreapi.com"

  /** A thrown value: an `Error` object with its message, or anything else. */
  datatype Exception = ErrorObject(message: string) | NonErrorValue

  /** How an asynchronous call settles: with a value, or by throwing. */
  datatype Outcome<T> = Returned(value: T) | Threw(exception: Exception)

  /**
   * What `res.json()` yields: a falsy JSON value (`null`, `false`, `0`, `""`),
   * a value of the expected shape, or a rejection because the body is not JSON.
   */
  datatype Body<T> = Falsy | Json(value: T) | Malformed(message: string)

  datatype Response<T> = TransportFault(fault: Exception) | Http(status: int, body: Body<T>)

  /** `res.ok`: the status is in the 2xx range. */
  predicate IsOk(status: int)
  {
    200 <= status <= 299
  }

  function ListFailureMessage(status: int): string
  {
    "API call failed with status: " + IntToString(status)
  }

  /**
   * `getAllProducts()`: a non-2xx status throws an error naming it; otherwise the
   * parsed body is returned as it is (`None` for a falsy body). Transport faults
   * and JSON rejections are re-thrown.
   */
  function GetAllProducts(response: Response<seq<Product>>): (r: Outcome<Option<seq<Product>>>)
    ensures response.TransportFault? ==> r == Threw(response.fault)
    ensures response.Http? && !IsOk(response.status) ==>
      r.Threw? && r.exception.ErrorObject? && Contains(r.exception.message, IntToString(response.status))
    ensures r.Returned? <==> response.Http? && IsOk(response.status) && !response.body.Malformed?
    ensures r.Returned? && r.value.Some? <==> response.Http? && IsOk(response.status) && response.body.Json?
    ensures r.Returned? && r.value.Some? ==> r.value.value == response.body.value
    ensures response.Http? && IsOk(response.status) && response.body.Malformed? ==>
      r == Threw(ErrorObject(response.body.message))
  {
    match response
    case TransportFault(e) => Threw(e)
    case Http(status, body) =>
      if !IsOk(status) then
        ContainsAppended("API call failed with status: ", IntToString(status));
        Threw(ErrorObject(ListFailureMessage(status)))
      else
        match body
        case Falsy => Returned(None)
        case Json(products) => Returned(Some(products))
        case Malformed(message) => Threw(ErrorObject(message))
  }

  // ---------------------------------------------------------------------------
  // getProductById
  // ---------------------------------------------------------------------------

  /** The argument of `getProductById`: a number or a string. */
  datatype ProductId = NumberId(n: int) | TextId(s: string)

  /** `${id}`: how the id is written into the URL and the messages. */
  function IdText(id: ProductId): string
  {
    match id
    case NumberId(n) => IntToString(n)
    case TextId(s) => s
  }

  /**
   * The guard `!id || isNaN(Number(id))`, negated: a number passes unless it is
   * 0; a string passes unless it is empty or does not convert to a number.
   */
  predicate IsValidId(id: ProductId)
  {
    match id
    case NumberId(n) => n != 0
    case TextId(s) => s != "" && ConvertsToNumber(s)
  }

  function ProductUrl(id: ProductId): string
  {
    ApiUrl + "/products/" + IdText(id)
  }

  /** The URL `getProductById` fetches, or `None` when it returns before any request. */
  function ProductRequest(id: ProductId): (url: Option<string>)
    ensures url.Some? <==> IsValidId(id)
    ensures url.Some? ==> StartsWith(url.value, ApiUrl + "/products/")
  {
    if IsValidId(id) then Some(ProductUrl(id)) else None
  }

  function ProductFailureMessage(id: ProductId, status: int): string
  {
    "[getProductById] API call failed for product " + IdText(id) + ". Status: "
      + IntToString(status) + ", URL: " + ProductUrl(id)
  }

  /**
   * `getProductById(id)` given the answer to its request: an invalid id, a 404
   * and a falsy body give `null` (`None`); another non-2xx status throws an
   * error naming the status; a transport fault or a JSON rejection is re-thrown.
   */
  function GetProductById(id: ProductId, response: Response<Product>): (r: Outcome<Option<Product>>)
    ensures !IsValidId(id) ==> r == Returned(None)
    ensures r == Returned(None) <==>
      !IsValidId(id) ||
      (response.Http? && (response.status == 404 || (IsOk(response.status) && response.body.Falsy?)))
    ensures r.Returned? && r.value.Some? <==>
      IsValidId(id) && response.Http? && IsOk(response.status) && response.body.Json?
    ensures r.Returned? && r.value.Some? ==> r.value.value == response.body.value
    ensures IsValidId(id) && response.TransportFault? ==> r == Threw(response.fault)
    ensures IsValidId(id) && response.Http? && !IsOk(response.status) && response.status != 404 ==>
      r.Threw? && r.exception.ErrorObject? && Contains(r.exception.message, IntToString(response.status))
    ensures IsValidId(id) && response.Http? && IsOk(response.status) && response.body.Malformed? ==>
      r == Threw(ErrorObject(response.body.message))
  {
    if !IsValidId(id) then Returned(None)
    else
      match response
      case TransportFault(e) => Threw(e)
      case Http(status, body) =>
        if !IsOk(status) then
          if status == 404 then Returned(None)
          else
            assert ProductFailureMessage(id, status)
                == ("[getProductById] API call failed for product " + IdText(id) + ". Status: "
                    + IntToString(status)) + (", URL: " + ProductUrl(id));
            ContainsAppended("[getProductById] API call failed for product " + IdText(id) + ". Status: ",
              IntToString(status));
            ContainsPrefix("[getProductById] API call failed for product " + IdText(id) + ". Status: "
              + IntToString(status), ", URL: " + ProductUrl(id), IntToString(status));
            Threw(ErrorObject(ProductFailureMessage(id, status)))
        else
          match body
          case Falsy => Returned(None)
          case Json(product) => Returned(Some(product))
          case Malformed(message) => Threw(ErrorObject(message))
  }

  /** What is found in a string is still found once more text is appended. */
  lemma ContainsPrefix(a: string, b: string, needle: string)
    requires Contains(a, needle)
    ensures Contains(a + b, needle)
  {
    ContainsIffOccurs(a, needle);
    var i :| OccursAt(a, needle, i);
    assert (a + b)[i..i + |needle|] == a[i..i + |needle|];
    assert OccursAt(a + b, needle, i);
    ContainsIffOccurs(a + b, needle);
  }

  /** An invalid id gives `null` whatever the network would have answered: no request is made. */
  lemma InvalidIdMakesNoRequest(id: ProductId)
    requires !IsValidId(id)
    ensures ProductRequest(id) == None
    ensures forall response :: GetProductById(id, response) == Returned(None)
  {
  }

  /** The id guard refuses the number 0, the empty string and text that is not numeric. */
  lemma InvalidIdExamples()
    ensures !IsValidId(NumberId(0))
    ensures !IsValidId(TextId(""))
    ensures !IsValidId(TextId("abc"))
  {
    LetterFirstIsNaN("abc");
  }

  /** The id guard lets through a non-zero number and numeric text, `"0"` among it: only the number 0 is falsy. */
  lemma ValidIdExamples()
    ensures IsValidId(NumberId(7))
    ensures IsValidId(TextId("12"))
    ensures IsValidId(TextId("0"))
  {
    assert IsValidId(TextId("12")) by {
      assert NatToString(1) == "1";
      assert NatToString(12) == "12";
      IntToStringConverts(12);
    }
    assert IsValidId(TextId("0")) by {
      assert NatToString(0) == "0";
      IntToStringConverts(0);
    }
  }

  /** Blank text passes the id guard too: it is truthy, and `Number(" ")` is 0. */
  lemma BlankIdPasses()
    ensures IsValidId(TextId(" "))
  {
    assert IsBlank(" ");
    TrimEmptyIffBlank(" ");
  }

  // ---------------------------------------------------------------------------
  // getAllProductIds
  // ---------------------------------------------------------------------------

  /** `{ params: { id } }`: the route parameters of one detail page. */
  datatype PathParams = PathParams(id: string)

  /** `products.map(product => ({ params: { id: String(product.id) } }))`. */
  function IdParams(products: seq<Product>): (paths: seq<PathParams>)
    ensures |paths| == |products|
    ensures forall i :: 0 <= i < |products| ==> paths[i].id == IntToString(products[i].id)
  {
    if products == [] then []
    else [PathParams(IntToString(products[0].id))] + IdParams(products[1..])
  }

  /**
   * `getAllProductIds()`: one path per product on success; any failure of
   * `getAllProducts`, and a falsy list (on which `map` throws), gives `[]`.
   */
  function GetAllProductIds(response: Response<seq<Product>>): (paths: seq<PathParams>)
  {
    match GetAllProducts(response)
    case Returned(Some(products)) => IdParams(products)
    case _ => []
  }

  /**
   * On success every product gets one path, in the same order, whose id reads
   * back as the product's id and passes the id guard of `getProductById`;
   * otherwise there are no paths.
   */
  lemma AllProductIdsRoundTrip(response: Response<seq<Product>>)
    ensures var paths := GetAllProductIds(response);
      match GetAllProducts(response)
      case Returned(Some(products)) =>
        |paths| == |products| &&
        forall i :: 0 <= i < |paths| ==>
          var text := paths[i].id;
          (AllDigits(text) || (text != [] && text[0] == '-' && AllDigits(text[1..]))) &&
          ParseInt(text) == products[i].id &&
          IsValidId(TextId(text))
      case _ => paths == []
  {
    if GetAllProducts(response).Returned? && GetAllProducts(response).value.Some? {
      var products := GetAllProducts(response).value.value;
      forall i | 0 <= i < |products| ensures
        var text := IntToString(products[i].id);
        (AllDigits(text) || (text != [] && text[0] == '-' && AllDigits(text[1..]))) &&
        ParseInt(text) == products[i].id && IsValidId(TextId(text))
      {
        ParseIntToString(products[i].id);
        IntToStringConverts(products[i].id);
      }
    }
  }

  /** Distinct product ids give distinct paths. */
  lemma DistinctIdsGiveDistinctPaths(products: seq<Product>)
    requires forall i, j :: 0 <= i < j < |products| ==> products[i].id != products[j].id
    ensures var paths := IdParams(products);
      forall i, j :: 0 <= i < j < |paths| ==> paths[i] != paths[j]
  {
    var paths := IdParams(products);
    forall i, j | 0 <= i < j < |paths| ensures paths[i] != paths[j] {
      ParseIntToString(products[i].id);
      ParseIntToString(products[j].id);
    }
  }

  /** Scenario: a 500 from the list endpoint throws an error whose message names the status. */
  lemma ServerErrorNamesStatus(body: Body<seq<Product>>)
    ensures var r := GetAllProducts(Http(500, body));
      r.Threw? && r.exception.ErrorObject? && Contains(r.exception.message, "500")
  {
    assert IntToString(500) == "500" by {
      assert NatToString(5) == "5";
      assert NatToString(50) == "50";
    }
  }
}
