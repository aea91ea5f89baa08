/** Tracked links and the URL a redirect sends the client to.

    The stored target is split by the URL library into the components of
    section 3 of RFC 3986 (scheme, authority, path, query, fragment, plus the
    `;params` of the last path segment); its query is turned into a dict from
    each key to the list of its values. Each of the three attribution keys that
    the query lacks, and for which the Link holds a non-empty value, is added;
    then every key is kept with its first value only, and the URL is put back
    together from the original components and the new query. */
module Links {
  import opened Common
  import opened Dict

  /** A Link document as `create_link` stores it. */
  datatype Link = Link(
    slug: string,
    target: Option<string>,
    utmCampaign: Option<string>,
    utmSource: Option<string>,
    utmMedium: Option<string>,
    source: Option<string>)

  /** A Click document as `redirect_link` records it. */
  datatype Click = Click(linkSlug: string, referrer: Option<string>, userAgent: Option<string>, ip: Option<string>)

  /** The attribution keys, in the order the redirect goes through them. */
  const UtmKeys: seq<string> := ["utm_source", "utm_medium", "utm_campaign"]

  /** `link.get(key)` for the attribution keys. */
  function UtmValue(link: Link, key: string): Option<string> {
    if key == "utm_source" then link.utmSource
    else if key == "utm_medium" then link.utmMedium
    else if key == "utm_campaign" then link.utmCampaign
    else None
  }

  /** What the query parser hands back: a dict, every key with at least one value. */
  predicate WellFormedQuery(q: Dict<seq<string>>) {
    DistinctKeys(q) && forall i :: 0 <= i < |q| ==> q[i].1 != []
  }

  type Query = q: Dict<seq<string>> | WellFormedQuery(q) witness []

  /** The target as the URL parser splits it, with its query already parsed. */
  datatype ParsedTarget = ParsedTarget(scheme: string, netloc: string, path: string, params: string, query: Query, fragment: string)

  /** The six components the URL is rebuilt from; the query is the dict of
      single values that is form-encoded into the fourth of them. */
  datatype RebuiltUrl = RebuiltUrl(scheme: string, netloc: string, path: string, params: string, query: Dict<string>, fragment: string)

  /** The redirect adds `key` exactly when the query lacks it and the Link's value is truthy. */
  predicate Injects(q: Dict<seq<string>>, link: Link, key: string) {
    !Contains(q, key) && Truthy(UtmValue(link, key))
  }

  /** The entries the redirect adds, going through `keys` in order, each judged
      against the query as parsed. */
  function Injected(q: Dict<seq<string>>, link: Link, keys: seq<string>): Dict<seq<string>> {
    if keys == [] then []
    else
      var k := keys[|keys| - 1];
      Injected(q, link, keys[..|keys| - 1]) + (if Injects(q, link, k) then [(k, [UtmValue(link, k).value])] else [])
  }

  /** Every added entry is one of `keys`, missing from the query, with the
      Link's value as its only value; no key is added twice. */
  lemma {:induction false} InjectedEntries(q: Dict<seq<string>>, link: Link, keys: seq<string>)
    requires Distinct(keys)
    ensures forall j :: 0 <= j < |Injected(q, link, keys)| ==>
      var e := Injected(q, link, keys)[j];
      e.0 in keys && Injects(q, link, e.0) && e.1 == [UtmValue(link, e.0).value]
    ensures DistinctKeys(Injected(q, link, keys))
  {
    if keys != [] {
      var init := keys[..|keys| - 1];
      InjectedEntries(q, link, init);
      var k := keys[|keys| - 1];
      forall j | 0 <= j < |init| ensures init[j] == keys[j] && init[j] != k { }
    }
  }

  /** The query with the added entries after it still has distinct keys and a
      value for every key. */
  lemma InjectedWellFormed(q: Query, link: Link, keys: seq<string>)
    requires Distinct(keys)
    ensures WellFormedQuery(q + Injected(q, link, keys))
  {
    var inj := Injected(q, link, keys);
    InjectedEntries(q, link, keys);
    forall i, j | 0 <= i < j < |q + inj| ensures (q + inj)[i].0 != (q + inj)[j].0 {
      if j >= |q| && i < |q| {
        assert (q + inj)[j] == inj[j - |q|];
        assert !Contains(q, inj[j - |q|].0);
      }
    }
  }

  /** Looking an attribution key up among the added entries: it is there, with
      the Link's value, exactly when the redirect adds it. */
  lemma {:induction false} GetInjected(q: Dict<seq<string>>, link: Link, keys: seq<string>, k: string)
    requires Distinct(keys)
    ensures Get(Injected(q, link, keys), k) ==
      if k in keys && Injects(q, link, k) then Some([UtmValue(link, k).value]) else None
  {
    InjectedEntries(q, link, keys);
    if keys != [] {
      var init, last := keys[..|keys| - 1], keys[|keys| - 1];
      assert keys == init + [last];
      assert Distinct(init);
      GetInjected(q, link, init, k);
      var tail: Dict<seq<string>> := if Injects(q, link, last) then [(last, [UtmValue(link, last).value])] else [];
      GetAppend(Injected(q, link, init), tail, k);
      if k == last {
        assert k !in init;
      }
    }
  }

  /** The query after the loop over the attribution keys. */
  function Merged(q: Query, link: Link): Query {
    InjectedWellFormed(q, link, UtmKeys);
    q + Injected(q, link, UtmKeys)
  }

  lemma UtmKeysPrefixDistinct(n: nat)
    requires n <= |UtmKeys|
    ensures Distinct(UtmKeys[..n])
  {
  }

  /** One turn of the loop: the key is judged against the dict as updated so
      far, which has it exactly when the parsed query had it. */
  lemma MergeStep(q: Query, link: Link, i: nat)
    requires i < |UtmKeys|
    ensures var m := q + Injected(q, link, UtmKeys[..i]);
            var key := UtmKeys[i];
            (if !Contains(m, key) && Truthy(UtmValue(link, key)) then Put(m, key, [UtmValue(link, key).value]) else m)
            == q + Injected(q, link, UtmKeys[..i + 1])
  {
    var done, key := UtmKeys[..i], UtmKeys[i];
    var inj := Injected(q, link, done);
    UtmKeysPrefixDistinct(i);
    assert key !in done;
    GetInjected(q, link, done, key);
    GetAppend(q, inj, key);
    assert UtmKeys[..i + 1][..i] == done && UtmKeys[..i + 1][i] == key;
    if !Contains(q, key) && Truthy(UtmValue(link, key)) {
      assert (q + inj) + [(key, [UtmValue(link, key).value])] == q + (inj + [(key, [UtmValue(link, key).value])]);
    }
  }

  /** The loop of `redirect_link` over the three keys: `if key not in q and
      link.get(key): q[key] = [link.get(key)]`, updating the dict in place. */
  method MergeUtm(q: Query, link: Link) returns (merged: Query)
    ensures merged == Merged(q, link)
    ensures |merged| >= |q| && merged[..|q|] == q
  {
    var m: Dict<seq<string>> := q;
    for i := 0 to |UtmKeys|
      invariant m == q + Injected(q, link, UtmKeys[..i])
    {
      MergeStep(q, link, i);
      var key := UtmKeys[i];
      if !Contains(m, key) && Truthy(UtmValue(link, key)) {
        m := Put(m, key, [UtmValue(link, key).value]);
      }
    }
    assert UtmKeys[..|UtmKeys|] == UtmKeys;
    assert m == Merged(q, link);
    merged := m;
  }

  /** The keys added, in the fixed order source, medium, campaign. */
  function AddedKeys(q: Dict<seq<string>>, link: Link): seq<string> {
    (if Injects(q, link, "utm_source") then ["utm_source"] else [])
    + (if Injects(q, link, "utm_medium") then ["utm_medium"] else [])
    + (if Injects(q, link, "utm_campaign") then ["utm_campaign"] else [])
  }

  lemma InjectedKeysInOrder(q: Dict<seq<string>>, link: Link)
    ensures Keys(Injected(q, link, UtmKeys)) == AddedKeys(q, link)
  {
    var k0, k1, k2 := UtmKeys[..1], UtmKeys[..2], UtmKeys;
    assert k1[..1] == k0 && k0[..0] == [] && k2[..2] == k1;
    var e0: Dict<seq<string>> := if Injects(q, link, "utm_source") then [("utm_source", [UtmValue(link, "utm_source").value])] else [];
    var e1: Dict<seq<string>> := if Injects(q, link, "utm_medium") then [("utm_medium", [UtmValue(link, "utm_medium").value])] else [];
    var e2: Dict<seq<string>> := if Injects(q, link, "utm_campaign") then [("utm_campaign", [UtmValue(link, "utm_campaign").value])] else [];
    assert Injected(q, link, k0) == [] + e0;
    assert Injected(q, link, k1) == Injected(q, link, k0) + e1;
    assert Injected(q, link, k2) == Injected(q, link, k1) + e2;
    KeysAppend([] + e0, e1);
    KeysAppend(e0 + e1, e2);
    assert [] + e0 == e0;
  }

  /** `{k: v[0] for k, v in q.items()}`: each key with its first value. */
  function FirstValues(q: Query): Dict<string> {
    seq(|q|, i requires 0 <= i < |q| => (q[i].0, q[i].1[0]))
  }

  /** Each key of the query is kept, in place, with its first value only. */
  lemma GetFirstValues(q: Query, k: string)
    ensures Get(FirstValues(q), k) == if Contains(q, k) then Some(Get(q, k).value[0]) else None
    ensures Contains(FirstValues(q), k) == Contains(q, k)
  {
    IndexOfSameKeys(FirstValues(q), q, k);
  }

  /** The redirect URL for a Link whose target parsed into `p`. */
  function RedirectUrl(p: ParsedTarget, link: Link): (r: RebuiltUrl)
    ensures r.scheme == p.scheme && r.netloc == p.netloc && r.path == p.path
    ensures r.params == p.params && r.fragment == p.fragment
    ensures Keys(r.query) == Keys(p.query) + AddedKeys(p.query, link)
    ensures DistinctKeys(r.query)
  {
    var query := FirstValues(Merged(p.query, link));
    assert Keys(query) == Keys(Merged(p.query, link));
    InjectedKeysInOrder(p.query, link);
    RebuiltUrl(p.scheme, p.netloc, p.path, p.params, query, p.fragment)
  }

  /** A key the target's query already has keeps its own (first) value; the
      Link's value for it is ignored. */
  lemma ExistingKeyWins(p: ParsedTarget, link: Link, k: string)
    requires Contains(p.query, k)
    ensures Get(RedirectUrl(p, link).query, k) == Some(Get(p.query, k).value[0])
  {
    GetFirstValues(Merged(p.query, link), k);
    GetAppend(p.query, Injected(p.query, link, UtmKeys), k);
  }

  /** An attribution key the query lacks appears exactly when the Link's value
      for it is truthy, and then with that value. */
  lemma MissingUtmKey(p: ParsedTarget, link: Link, k: string)
    requires k in UtmKeys && !Contains(p.query, k)
    ensures Contains(RedirectUrl(p, link).query, k) <==> Truthy(UtmValue(link, k))
    ensures Truthy(UtmValue(link, k)) ==> Get(RedirectUrl(p, link).query, k) == Some(UtmValue(link, k).value)
  {
    UtmKeysPrefixDistinct(|UtmKeys|);
    assert UtmKeys[..|UtmKeys|] == UtmKeys;
    GetFirstValues(Merged(p.query, link), k);
    GetAppend(p.query, Injected(p.query, link, UtmKeys), k);
    GetInjected(p.query, link, UtmKeys, k);
  }

  /** Any other key the query lacks stays absent. */
  lemma OtherKeyAbsent(p: ParsedTarget, link: Link, k: string)
    requires k !in UtmKeys && !Contains(p.query, k)
    ensures !Contains(RedirectUrl(p, link).query, k)
  {
    UtmKeysPrefixDistinct(|UtmKeys|);
    assert UtmKeys[..|UtmKeys|] == UtmKeys;
    GetFirstValues(Merged(p.query, link), k);
    GetAppend(p.query, Injected(p.query, link, UtmKeys), k);
    GetInjected(p.query, link, UtmKeys, k);
  }
}
