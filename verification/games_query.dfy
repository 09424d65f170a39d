/** The query string of the game list request (`getGamesList` in
    `games/services/games.service.ts`). Each parameter is optional and is
    added only when JavaScript treats it as present: a non-empty search, a
    non-empty genre id, and a defined play filter other than `All`. The
    enum's text form is left abstract as `FilterValue`. */
module GamesQuery {
  import opened Wrappers
  import GameService

  type PlayFilter = GameService.PlayFilter

  /** The argument object `getGamesList` reads; an absent key is `None`. */
  datatype ListParams = ListParams(search: Option<string>, genreId: Option<string>, playFilter: Option<PlayFilter>)

  datatype QueryValue = TextValue(text: string) | FilterValue(filter: PlayFilter)

  /** Query parameters in the order they are set. */
  type Query = seq<(string, QueryValue)>

  /** A JavaScript string option is truthy: defined and non-empty. */
  predicate Truthy(s: Option<string>) {
    s.Some? && s.value != ""
  }

  /** The `search` pair, when the search is truthy. */
  function SearchPart(p: ListParams): Query {
    if Truthy(p.search) then [("search", TextValue(p.search.value))] else []
  }

  /** The `genreId` pair, when the genre id is truthy. */
  function GenrePart(p: ListParams): Query {
    if Truthy(p.genreId) then [("genreId", TextValue(p.genreId.value))] else []
  }

  /** The `filter` pair, when the play filter is defined and not `All`. */
  function FilterPart(p: ListParams): Query {
    if p.playFilter.Some? && p.playFilter.value != GameService.All then [("filter", FilterValue(p.playFilter.value))] else []
  }

  /** The query built for an optional argument object. */
  function BuildQuery(params: Option<ListParams>): (q: Query)
    ensures params.None? ==> q == []
    ensures |q| <= 3
    ensures forall i :: 0 <= i < |q| ==> q[i].0 in {"search", "genreId", "filter"}
    ensures forall i, j :: 0 <= i < j < |q| ==> q[i].0 != q[j].0
  {
    if params.None? then [] else SearchPart(params.value) + GenrePart(params.value) + FilterPart(params.value)
  }

  /** `HttpParams.get`: the first value under `key`. */
  function Lookup(q: Query, key: string): (r: Option<QueryValue>)
    ensures r.None? <==> forall i :: 0 <= i < |q| ==> q[i].0 != key
    ensures r.Some? ==> exists i :: 0 <= i < |q| && q[i] == (key, r.value)
  {
    if |q| == 0 then None
    else if q[0].0 == key then Some(q[0].1)
    else
      var rest := Lookup(q[1..], key);
      assert forall i :: 0 < i < |q| ==> q[i] == q[1..][i - 1];
      if rest.Some? then
        ghost var i :| 0 <= i < |q[1..]| && q[1..][i] == (key, rest.value);
        assert q[i + 1] == (key, rest.value);
        rest
      else rest
  }

  /** Reading the built query back gives each parameter exactly when it was sent. */
  lemma {:induction false} QueryReadsBack(p: ListParams)
    ensures Lookup(BuildQuery(Some(p)), "search") == (if Truthy(p.search) then Some(TextValue(p.search.value)) else None)
    ensures Lookup(BuildQuery(Some(p)), "genreId") == (if Truthy(p.genreId) then Some(TextValue(p.genreId.value)) else None)
    ensures Lookup(BuildQuery(Some(p)), "filter") ==
      (if p.playFilter.Some? && p.playFilter.value != GameService.All then Some(FilterValue(p.playFilter.value)) else None)
  {
    var q := BuildQuery(Some(p));
    var s, g, f := SearchPart(p), GenrePart(p), FilterPart(p);
    assert q == s + g + f;
    LookupConcat(s, g + f, "search");
    LookupConcat(g, f, "search");
    LookupConcat(s, g + f, "genreId");
    LookupConcat(g, f, "genreId");
    LookupConcat(s, g + f, "filter");
    LookupConcat(g, f, "filter");
    assert s + g + f == s + (g + f);
  }

  /** Lookup in a concatenation looks in the first part, then the second. */
  lemma {:induction false} LookupConcat(a: Query, b: Query, key: string)
    ensures Lookup(a + b, key) == if Lookup(a, key).Some? then Lookup(a, key) else Lookup(b, key)
  {
    if |a| == 0 {
      assert a + b == b;
    } else {
      assert (a + b)[1..] == a[1..] + b;
      LookupConcat(a[1..], b, key);
    }
  }

  /** A call with no argument object, or one with no truthy field, sends no parameters. */
  lemma EmptyParamsEmptyQuery(p: ListParams)
    requires !Truthy(p.search) && !Truthy(p.genreId) && (p.playFilter.None? || p.playFilter.value == GameService.All)
    ensures BuildQuery(Some(p)) == [] && BuildQuery(None) == []
  {
  }
}
