/** The filter `list_products` hands to the store: a dict built by successive
    assignments, one criterion per truthy `room`, `style` or `tag`, and a
    four-field case-insensitive pattern alternative when `q` is given. How the
    store matches it is not part of this model. */
module ProductFilter {
  import opened Common
  import opened Dict

  /** `{"$regex": pattern, "$options": options}`. */
  datatype Regex = Regex(pattern: string, options: string)

  /** The value under a key of the filter: an exact value, or an `$or` list of
      one-field pattern conditions. */
  datatype Criterion = Equals(value: string) | AnyOf(alternatives: seq<(string, Regex)>)

  /** The fields the free-text search looks at, in the order they are listed. */
  const SearchFields: seq<string> := ["title", "summary", "brand", "tags"]

  /** The filter keys, in the order they can be assigned. */
  const FilterKeys: seq<string> := ["room", "style", "tags", "$or"]

  /** The `$or` alternative for the search text `q`. */
  function TextSearch(q: string): Criterion {
    AnyOf(seq(|SearchFields|, i requires 0 <= i < |SearchFields| => (SearchFields[i], Regex(q, "i"))))
  }

  /** The entry a filter gets for `key` when `present`, and none otherwise. */
  function Entry(key: string, c: Criterion, present: bool): Dict<Criterion> {
    if present then [(key, c)] else []
  }

  lemma GetEntry(key: string, c: Criterion, present: bool, k: string)
    ensures Get(Entry(key, c, present), k) == if present && key == k then Some(c) else None
    ensures Contains(Entry(key, c, present), k) == (present && key == k)
  {
  }

  /** The filter for the given query parameters, entry by entry in the order
      they are assigned. */
  function Filter(room: Option<string>, style: Option<string>, tag: Option<string>, q: Option<string>): Dict<Criterion> {
    Entry("room", Equals(room.GetOr("")), Truthy(room))
    + Entry("style", Equals(style.GetOr("")), Truthy(style))
    + Entry("tags", Equals(tag.GetOr("")), Truthy(tag))
    + Entry("$or", TextSearch(q.GetOr("")), Truthy(q))
  }

  /** A key's own piece decides its lookup, since the other pieces hold other keys. */
  lemma GetFilter(room: Option<string>, style: Option<string>, tag: Option<string>, q: Option<string>, k: string)
    ensures Get(Filter(room, style, tag, q), k) ==
      if k == "room" then (if Truthy(room) then Some(Equals(room.value)) else None)
      else if k == "style" then (if Truthy(style) then Some(Equals(style.value)) else None)
      else if k == "tags" then (if Truthy(tag) then Some(Equals(tag.value)) else None)
      else if k == "$or" then (if Truthy(q) then Some(TextSearch(q.value)) else None)
      else None
  {
    var a := Entry("room", Equals(room.GetOr("")), Truthy(room));
    var b := Entry("style", Equals(style.GetOr("")), Truthy(style));
    var c := Entry("tags", Equals(tag.GetOr("")), Truthy(tag));
    var d := Entry("$or", TextSearch(q.GetOr("")), Truthy(q));
    GetAppend(a + b + c, d, k);
    GetAppend(a + b, c, k);
    GetAppend(a, b, k);
    GetEntry("room", Equals(room.GetOr("")), Truthy(room), k);
    GetEntry("style", Equals(style.GetOr("")), Truthy(style), k);
    GetEntry("tags", Equals(tag.GetOr("")), Truthy(tag), k);
    GetEntry("$or", TextSearch(q.GetOr("")), Truthy(q), k);
  }

  /** The keys of the filter: each filter key whose parameter is truthy, in the
      order room, style, tags, `$or`. */
  lemma FilterKeysInOrder(room: Option<string>, style: Option<string>, tag: Option<string>, q: Option<string>)
    ensures Keys(Filter(room, style, tag, q)) ==
      (if Truthy(room) then ["room"] else []) + (if Truthy(style) then ["style"] else [])
      + (if Truthy(tag) then ["tags"] else []) + (if Truthy(q) then ["$or"] else [])
  {
    var a := Entry("room", Equals(room.GetOr("")), Truthy(room));
    var b := Entry("style", Equals(style.GetOr("")), Truthy(style));
    var c := Entry("tags", Equals(tag.GetOr("")), Truthy(tag));
    var d := Entry("$or", TextSearch(q.GetOr("")), Truthy(q));
    KeysAppend(a + b + c, d);
    KeysAppend(a + b, c);
    KeysAppend(a, b);
  }

  /** `list_products` builds its filter by successive assignments to a dict;
      none of them finds its key already there. */
  method ListProductsFilter(room: Option<string>, style: Option<string>, tag: Option<string>, q: Option<string>)
    returns (flt: Dict<Criterion>)
    ensures flt == Filter(room, style, tag, q)
  {
    var a := Entry("room", Equals(room.GetOr("")), Truthy(room));
    var b := Entry("style", Equals(style.GetOr("")), Truthy(style));
    var c := Entry("tags", Equals(tag.GetOr("")), Truthy(tag));
    flt := [];
    if Truthy(room) {
      flt := Put(flt, "room", Equals(room.value));
    }
    assert flt == a;
    if Truthy(style) {
      GetEntry("room", Equals(room.GetOr("")), Truthy(room), "style");
      flt := Put(flt, "style", Equals(style.value));
    }
    assert flt == a + b;
    if Truthy(tag) {
      GetAppend(a, b, "tags");
      GetEntry("room", Equals(room.GetOr("")), Truthy(room), "tags");
      GetEntry("style", Equals(style.GetOr("")), Truthy(style), "tags");
      flt := Put(flt, "tags", Equals(tag.value));
    }
    assert flt == a + b + c;
    if Truthy(q) {
      GetAppend(a + b, c, "$or");
      GetAppend(a, b, "$or");
      GetEntry("room", Equals(room.GetOr("")), Truthy(room), "$or");
      GetEntry("style", Equals(style.GetOr("")), Truthy(style), "$or");
      GetEntry("tags", Equals(tag.GetOr("")), Truthy(tag), "$or");
      flt := Put(flt, "$or", TextSearch(q.value));
    }
  }

  /** With a search text, the filter's `$or` holds the four one-field patterns
      on title, summary, brand and tags, in that order, each case-insensitive. */
  lemma FilterTextSearch(room: Option<string>, style: Option<string>, tag: Option<string>, q: Option<string>)
    requires Truthy(q)
    ensures Get(Filter(room, style, tag, q), "$or") == Some(AnyOf([
      ("title", Regex(q.value, "i")),
      ("summary", Regex(q.value, "i")),
      ("brand", Regex(q.value, "i")),
      ("tags", Regex(q.value, "i"))]))
  {
    GetFilter(room, style, tag, q, "$or");
    var r := Regex(q.value, "i");
    assert TextSearch(q.value).alternatives == [("title", r), ("summary", r), ("brand", r), ("tags", r)];
  }
}
