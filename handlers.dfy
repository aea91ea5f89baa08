/** How the handlers turn what their bodies raise into the final HTTP status.

    Two shapes occur. In `get_product`, `get_article` and `get_link` the whole
    body sits in `try ... except Exception as e: raise HTTPException(500, str(e))`,
    and since `HTTPException` is itself an `Exception` the 404 raised inside the
    `try` comes out as a 500. In `create_link` and `delete_wishlist_item` an
    `except HTTPException: raise` comes first, so their 400 and 404 survive. */
module Handlers {
  import opened Common
  import opened Dict
  import opened Documents

  /** An exception raised by a handler body: an `HTTPException` or any other. */
  datatype Exc = HttpExc(status: nat, detail: string) | OtherExc(message: string)

  /** What a handler body (or a call into the store) does: return or raise. */
  datatype Outcome<+T> = Returned(value: T) | Raised(exc: Exc)

  /** What a call into the store does: complete with a value, or fail with the
      message of the driver's exception. */
  datatype StoreResult<+T> = Done(value: T) | StoreError(message: string)

  /** What the client receives: the value, or an error status with its detail. */
  datatype Reply<+T> = Success(value: T) | Failure(status: nat, detail: string)

  const InternalError: nat := 500
  const BadRequest: nat := 400
  const NotFound: nat := 404

  /** `str(e)`. For an `HTTPException` this is the framework's text
      "status: detail". */
  function ExcText(e: Exc): string {
    match e
    case HttpExc(s, d) => NatToString(s) + ": " + d
    case OtherExc(m) => m
  }

  /** `try: body except Exception as e: raise HTTPException(500, str(e))`. */
  function CatchAll<T>(o: Outcome<T>): (r: Reply<T>)
    ensures r.Success? <==> o.Returned?
    ensures r.Success? ==> r.value == o.value
    ensures r.Failure? ==> r.status == InternalError && r.detail == ExcText(o.exc)
  {
    match o
    case Returned(v) => Success(v)
    case Raised(e) => Failure(InternalError, ExcText(e))
  }

  /** `try: body except HTTPException: raise except Exception as e:
      raise HTTPException(500, str(e))`. */
  function ReraiseHttp<T>(o: Outcome<T>): (r: Reply<T>)
    ensures r.Success? <==> o.Returned?
    ensures r.Success? ==> r.value == o.value
    ensures o.Raised? && o.exc.HttpExc? ==> r == Failure(o.exc.status, o.exc.detail)
    ensures o.Raised? && o.exc.OtherExc? ==> r == Failure(InternalError, o.exc.message)
  {
    match o
    case Returned(v) => Success(v)
    case Raised(HttpExc(s, d)) => Failure(s, d)
    case Raised(OtherExc(m)) => Failure(InternalError, m)
  }

  /** The body shared by the three lookups: the store's `find_one` may raise;
      a falsy result raises a 404; a found document is returned through `_safe_id`. */
  function FoundOr404(lookup: StoreResult<Option<Doc>>, detail: string): Outcome<Option<Doc>> {
    match lookup
    case StoreError(m) => Raised(OtherExc(m))
    case Done(doc) =>
      if Falsy(doc) then Raised(HttpExc(NotFound, detail)) else Returned(SafeId(doc))
  }

  /** The body of `get_product`. `objectIdAvailable` is whether `bson` could be
      imported, `idError` the error `ObjectId(product_id)` raises on a malformed
      id, and `lookup` what `find_one` did. */
  function GetProductBody(objectIdAvailable: bool, idError: Option<string>, lookup: StoreResult<Option<Doc>>): Outcome<Option<Doc>> {
    if !objectIdAvailable then Raised(HttpExc(InternalError, "ObjectId not available"))
    else if idError.Some? then Raised(OtherExc(idError.value))
    else FoundOr404(lookup, "Product not found")
  }

  /** `get_product`, as written: the body under the catch-all. */
  function GetProduct(objectIdAvailable: bool, idError: Option<string>, lookup: StoreResult<Option<Doc>>): (r: Reply<Option<Doc>>)
    ensures r.Failure? ==> r.status == InternalError
    ensures r.Success? <==> objectIdAvailable && idError.None? && lookup.Done? && !Falsy(lookup.value)
    ensures r.Success? ==> r.value == SafeId(lookup.value)
  {
    CatchAll(GetProductBody(objectIdAvailable, idError, lookup))
  }

  /** `get_article`, as written: lookup by slug under the catch-all. */
  function GetArticle(lookup: StoreResult<Option<Doc>>): (r: Reply<Option<Doc>>)
    ensures r.Failure? ==> r.status == InternalError
    ensures r.Success? <==> lookup.Done? && !Falsy(lookup.value)
    ensures r.Success? ==> r.value == SafeId(lookup.value)
  {
    CatchAll(FoundOr404(lookup, "Article not found"))
  }

  /** `get_link`, as written: lookup by slug under the catch-all. */
  function GetLink(lookup: StoreResult<Option<Doc>>): (r: Reply<Option<Doc>>)
    ensures r.Failure? ==> r.status == InternalError
    ensures r.Success? <==> lookup.Done? && !Falsy(lookup.value)
    ensures r.Success? ==> r.value == SafeId(lookup.value)
  {
    CatchAll(FoundOr404(lookup, "Link not found"))
  }

  /** `get_product` with `except HTTPException: raise` before the catch-all, as
      `create_link` and `delete_wishlist_item` have it: a missing product is a 404. */
  function GetProductFixed(objectIdAvailable: bool, idError: Option<string>, lookup: StoreResult<Option<Doc>>): (r: Reply<Option<Doc>>)
    ensures r.Success? <==> objectIdAvailable && idError.None? && lookup.Done? && !Falsy(lookup.value)
    ensures r.Success? ==> r.value == SafeId(lookup.value)
    ensures objectIdAvailable && idError.None? && lookup.Done? && Falsy(lookup.value) ==>
      r == Failure(NotFound, "Product not found")
    ensures !(objectIdAvailable && idError.None? && lookup.Done?) ==> r.Failure? && r.status == InternalError
  {
    ReraiseHttp(GetProductBody(objectIdAvailable, idError, lookup))
  }

  /** `get_article` with the 404 re-raised. */
  function GetArticleFixed(lookup: StoreResult<Option<Doc>>): (r: Reply<Option<Doc>>)
    ensures r.Success? <==> lookup.Done? && !Falsy(lookup.value)
    ensures r.Success? ==> r.value == SafeId(lookup.value)
    ensures lookup.Done? && Falsy(lookup.value) ==> r == Failure(NotFound, "Article not found")
    ensures lookup.StoreError? ==> r == Failure(InternalError, lookup.message)
  {
    ReraiseHttp(FoundOr404(lookup, "Article not found"))
  }

  /** `get_link` with the 404 re-raised. */
  function GetLinkFixed(lookup: StoreResult<Option<Doc>>): (r: Reply<Option<Doc>>)
    ensures r.Success? <==> lookup.Done? && !Falsy(lookup.value)
    ensures r.Success? ==> r.value == SafeId(lookup.value)
    ensures lookup.Done? && Falsy(lookup.value) ==> r == Failure(NotFound, "Link not found")
    ensures lookup.StoreError? ==> r == Failure(InternalError, lookup.message)
  {
    ReraiseHttp(FoundOr404(lookup, "Link not found"))
  }

  /** The corrected lookups answer differently from the written ones on a
      missing document, and `get_product` also when `bson` is missing (its 500
      then keeps the bare detail instead of the "500: " text); on every other
      input they agree. */
  lemma FixedDiffersOnlyWhenMissing(objectIdAvailable: bool, idError: Option<string>, lookup: StoreResult<Option<Doc>>)
    ensures GetArticleFixed(lookup) != GetArticle(lookup) <==> lookup.Done? && Falsy(lookup.value)
    ensures GetLinkFixed(lookup) != GetLink(lookup) <==> lookup.Done? && Falsy(lookup.value)
    ensures GetProductFixed(objectIdAvailable, idError, lookup) != GetProduct(objectIdAvailable, idError, lookup)
      <==> !objectIdAvailable || (idError.None? && lookup.Done? && Falsy(lookup.value))
  {
    if !objectIdAvailable {
      var d := "ObjectId not available";
      assert |ExcText(HttpExc(InternalError, d))| > |d|;
    }
  }

  /** `delete_wishlist_item`. `deleted` is what `delete_one` did: raised, or the
      number of documents it deleted. */
  function DeleteWishlistItem(objectIdAvailable: bool, idError: Option<string>, deleted: StoreResult<nat>): (r: Reply<string>)
    ensures r.Success? <==> objectIdAvailable && idError.None? && deleted.Done? && deleted.value != 0
    ensures r.Success? ==> r.value == "deleted"
    ensures r.Failure? ==> r.status == InternalError || r == Failure(NotFound, "Item not found")
  {
    ReraiseHttp(
      if !objectIdAvailable then Raised(HttpExc(InternalError, "ObjectId not available"))
      else if idError.Some? then Raised(OtherExc(idError.value))
      else match deleted
        case StoreError(m) => Raised(OtherExc(m))
        case Done(n) => if n == 0 then Raised(HttpExc(NotFound, "Item not found")) else Returned("deleted"))
  }

  /** A missing product is reported as 500, not 404: the 404 raised inside the
      `try` is caught by the catch-all and re-raised as a 500 whose detail is
      the text of the 404. */
  lemma MissingProductIs500(doc: Option<Doc>)
    requires Falsy(doc)
    ensures GetProduct(true, None, Done(doc)) == Failure(InternalError, "404: Product not found")
  {
    NotFoundText();
    assert ExcText(HttpExc(NotFound, "Product not found")) == "404: Product not found";
    assert GetProduct(true, None, Done(doc)) == Failure(InternalError, ExcText(HttpExc(NotFound, "Product not found")));
  }

  /** The same for a missing article. */
  lemma MissingArticleIs500(doc: Option<Doc>)
    requires Falsy(doc)
    ensures GetArticle(Done(doc)) == Failure(InternalError, "404: Article not found")
  {
    NotFoundText();
    assert ExcText(HttpExc(NotFound, "Article not found")) == "404: Article not found";
    assert GetArticle(Done(doc)) == Failure(InternalError, ExcText(HttpExc(NotFound, "Article not found")));
  }

  /** The same for a missing link. */
  lemma MissingLinkIs500(doc: Option<Doc>)
    requires Falsy(doc)
    ensures GetLink(Done(doc)) == Failure(InternalError, "404: Link not found")
  {
    NotFoundText();
    assert ExcText(HttpExc(NotFound, "Link not found")) == "404: Link not found";
    assert GetLink(Done(doc)) == Failure(InternalError, ExcText(HttpExc(NotFound, "Link not found")));
  }

  /** The text of a 404 starts with its status in decimal. */
  lemma NotFoundText()
    ensures NatToString(NotFound) == "404"
  {
    assert NatToString(4) == "4";
    assert NatToString(40) == NatToString(4) + "0";
    assert NatToString(404) == NatToString(40) + "4";
  }

  /** A wishlist item that is not there keeps its 404: `HTTPException` is
      re-raised before the catch-all. */
  lemma MissingWishlistItemIs404()
    ensures DeleteWishlistItem(true, None, Done(0)) == Failure(NotFound, "Item not found")
  {
  }

  /** With `except HTTPException: raise` first, the status of every
      `HTTPException` survives; with the catch-all alone, no status but 500 can. */
  lemma ReraiseKeepsStatus<T>(o: Outcome<T>)
    requires o.Raised? && o.exc.HttpExc?
    ensures ReraiseHttp(o).status == o.exc.status
    ensures CatchAll(o).status == InternalError
    ensures o.exc.status != InternalError ==> ReraiseHttp(o) != CatchAll(o)
  {
  }
}
