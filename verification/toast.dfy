/** The toast stack (`components/toast/toast.component.ts`): each message
    is appended with the next id, and removed by id, which its three-second
    timer does (the timer itself is not modelled: removal is an event). */
module Toast {
  import opened Seqs

  datatype ToastKind = Success | Error | Info

  datatype ToastItem = ToastItem(id: nat, message: string, kind: ToastKind)

  datatype Toasts = Toasts(toasts: seq<ToastItem>, nextId: nat)

  /** The component's state on creation: no toasts, the first id is 1. */
  function Initial(): (r: Toasts)
    ensures r.toasts == [] && r.nextId == 1 && Valid(r)
  {
    Toasts([], 1)
  }

  /** Ids are positive, strictly increasing down the stack, and below the next id. */
  ghost predicate Valid(t: Toasts) {
    && t.nextId >= 1
    && (forall i :: 0 <= i < |t.toasts| ==> 1 <= t.toasts[i].id < t.nextId)
    && (forall i, j :: 0 <= i < j < |t.toasts| ==> t.toasts[i].id < t.toasts[j].id)
  }

  /** `show`: one toast at the end with the next id; the id counter advances. */
  function Show(t: Toasts, message: string, kind: ToastKind): (r: Toasts)
    ensures r.toasts == t.toasts + [ToastItem(t.nextId, message, kind)]
    ensures r.nextId == t.nextId + 1
    ensures Valid(t) ==> Valid(r)
  {
    Toasts(t.toasts + [ToastItem(t.nextId, message, kind)], t.nextId + 1)
  }

  /** `remove`: the toasts with the id go; the rest keep their order. */
  function Remove(t: Toasts, id: nat): (r: Toasts)
    ensures r.nextId == t.nextId
    ensures forall x :: x in r.toasts <==> x in t.toasts && x.id != id
    ensures |r.toasts| <= |t.toasts|
  {
    Toasts(Filter(t.toasts, (x: ToastItem) => x.id != id), t.nextId)
  }

  /** Removal keeps the order of the toasts that stay: removing from a stack
      made of two parts removes from each part, and keeps the parts in order. */
  lemma RemoveKeepsOrder(a: seq<ToastItem>, b: seq<ToastItem>, nextId: nat, id: nat)
    ensures Remove(Toasts(a + b, nextId), id).toasts
         == Remove(Toasts(a, nextId), id).toasts + Remove(Toasts(b, nextId), id).toasts
  {
    FilterConcat(a, b, (x: ToastItem) => x.id != id);
  }

  /** `getIcon`: the three kinds, any other type name the info icon. */
  function GetIcon(kind: string): (r: string)
    ensures kind == "success" ==> r == "bi-check-circle-fill"
    ensures kind == "error" ==> r == "bi-x-circle-fill"
    ensures kind != "success" && kind != "error" ==> r == "bi-info-circle-fill"
  {
    if kind == "success" then "bi-check-circle-fill"
    else if kind == "error" then "bi-x-circle-fill"
    else "bi-info-circle-fill"
  }

  /** The type name of a kind, as `show` receives it. */
  function KindName(kind: ToastKind): string {
    match kind
    case Success => "success"
    case Error => "error"
    case Info => "info"
  }

  // ----- properties -----

  /** Removal keeps the ids valid. */
  lemma RemoveKeepsValid(t: Toasts, id: nat)
    requires Valid(t)
    ensures Valid(Remove(t, id))
  {
    var p := (x: ToastItem) => x.id != id;
    var R := (a: ToastItem, b: ToastItem) => a.id < b.id;
    assert Pairwise(t.toasts, R);
    FilterPairwise(t.toasts, p, R);
    var r := Remove(t, id).toasts;
    assert r == Filter(t.toasts, p);
    forall i | 0 <= i < |r| ensures 1 <= r[i].id < t.nextId {
      assert r[i] in r;
      var k :| 0 <= k < |t.toasts| && t.toasts[k] == r[i];
    }
  }

  /** A toast shown and then removed by its own timer leaves the stack as it was. */
  lemma ShowThenExpire(t: Toasts, message: string, kind: ToastKind)
    requires Valid(t)
    ensures Remove(Show(t, message, kind), t.nextId).toasts == t.toasts
  {
    var p := (x: ToastItem) => x.id != t.nextId;
    FilterConcat(t.toasts, [ToastItem(t.nextId, message, kind)], p);
    FilterKeepsAll(t.toasts, p);
  }

  /** Removal by id removes at most one toast, as ids are unique. */
  lemma RemoveAtMostOne(t: Toasts, id: nat)
    requires Valid(t)
    ensures |Remove(t, id).toasts| >= |t.toasts| - 1
  {
    RemoveCount(t.toasts, id);
  }

  lemma {:induction false} RemoveCount(s: seq<ToastItem>, id: nat)
    requires forall i, j :: 0 <= i < j < |s| ==> s[i].id < s[j].id
    ensures |Filter(s, (x: ToastItem) => x.id != id)| >= |s| - 1
    ensures (forall i :: 0 <= i < |s| ==> s[i].id != id) ==> |Filter(s, (x: ToastItem) => x.id != id)| == |s|
  {
    var p := (x: ToastItem) => x.id != id;
    if |s| > 0 {
      var tail := s[1..];
      RemoveCount(tail, id);
      if s[0].id == id {
        assert forall i :: 0 <= i < |tail| ==> tail[i].id != id by {
          forall i | 0 <= i < |tail| ensures tail[i].id != id { assert s[0].id < s[i + 1].id; }
        }
      }
    }
  }

  /** The three kinds' icons are pairwise distinct. */
  lemma IconsDistinct(a: ToastKind, b: ToastKind)
    requires a != b
    ensures GetIcon(KindName(a)) != GetIcon(KindName(b))
  {
  }

  /** After any sequence of shows from the initial state, the ids are 1, 2, 3, … in order. */
  lemma {:induction false} ShowsNumberFromOne(messages: seq<string>)
    ensures var t := ShowAll(Initial(), messages);
      && |t.toasts| == |messages| && t.nextId == |messages| + 1
      && forall i :: 0 <= i < |messages| ==> t.toasts[i] == ToastItem(i + 1, messages[i], Success)
  {
    if |messages| > 0 {
      ShowsNumberFromOne(messages[..|messages| - 1]);
    }
  }

  /** Shows the messages in order as success toasts. */
  function ShowAll(t: Toasts, messages: seq<string>): Toasts {
    if |messages| == 0 then t else Show(ShowAll(t, messages[..|messages| - 1]), messages[|messages| - 1], Success)
  }
}
