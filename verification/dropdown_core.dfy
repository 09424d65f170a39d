/** The option list logic both dropdown components share: the options, the
    case-insensitive label search, the wrap-around keyboard highlight, and the
    label shown for the selected value. Option values are of the caller's
    type `V`; a null value is one of its values. */
module DropdownCore {
  import opened Wrappers
  import opened Seqs
  import opened Text

  /** `DropdownOption`: a label (`caption`, as `label` is a Dafny keyword), a value and a disabled flag (absent reads as enabled). */
  datatype DropdownOption<V> = DropdownOption(caption: string, value: V, disabled: bool)

  /** The option's lower-cased label contains the lower-cased term. */
  predicate LabelMatches<V>(o: DropdownOption<V>, term: string) {
    Contains(Lower(o.caption), Lower(term))
  }

  /** `filterOptions(term)`: a blank term keeps every option; otherwise the
      options whose label contains the untrimmed term ignoring case, in order. */
  function FilterOptions<V(!new)>(options: seq<DropdownOption<V>>, term: string): (r: seq<DropdownOption<V>>)
    ensures IsBlank(term) ==> r == options
    ensures !IsBlank(term) ==> forall o :: o in r <==> o in options && LabelMatches(o, term)
    ensures !IsBlank(term) ==> r == Filter(options, (o: DropdownOption<V>) => LabelMatches(o, term))
    ensures |r| <= |options|
  {
    if IsBlank(term) then options
    else Filter(options, (o: DropdownOption<V>) => LabelMatches(o, term))
  }

  /** Filtering keeps the options' relative order. */
  lemma FilterKeepsOrder<V(!new)>(a: seq<DropdownOption<V>>, b: seq<DropdownOption<V>>, term: string)
    ensures FilterOptions(a + b, term) == FilterOptions(a, term) + FilterOptions(b, term)
  {
    if !IsBlank(term) {
      FilterConcat(a, b, (o: DropdownOption<V>) => LabelMatches(o, term));
    }
  }

  /** The position of the first option carrying `v`, if any. */
  function FirstWithValue<V(==)>(options: seq<DropdownOption<V>>, v: V): (r: Option<nat>)
    ensures r.None? <==> forall i :: 0 <= i < |options| ==> options[i].value != v
    ensures r.Some? ==> r.value < |options| && options[r.value].value == v
    ensures r.Some? ==> forall i :: 0 <= i < r.value ==> options[i].value != v
  {
    if |options| == 0 then None
    else if options[0].value == v then Some(0)
    else match FirstWithValue(options[1..], v)
      case None => None
      case Some(k) => Some(k + 1)
  }

  /** `updateDisplayValue`: the label of the first option carrying the
      selected value, or '' when none does. */
  function DisplayLabel<V(==)>(options: seq<DropdownOption<V>>, selected: V): (r: string)
    ensures (forall i :: 0 <= i < |options| ==> options[i].value != selected) ==> r == ""
    ensures FirstWithValue(options, selected).Some? ==> r == options[FirstWithValue(options, selected).value].caption
  {
    match FirstWithValue(options, selected)
    case None => ""
    case Some(i) => options[i].caption
  }

  /** When values are distinct, the label shown for an option's value is that option's label. */
  lemma DisplayLabelOfMember<V>(options: seq<DropdownOption<V>>, i: nat)
    requires i < |options|
    requires forall j, k :: 0 <= j < k < |options| ==> options[j].value != options[k].value
    ensures DisplayLabel(options, options[i].value) == options[i].caption
  {
  }

  /** The highlight after one arrow key among `n` options while open: down
      moves one on and wraps from the last to the first, up moves one back
      and wraps from the first (or from none) to the last. */
  function NextHighlight(highlight: int, n: nat, down: bool): (r: int)
    ensures down && highlight < n - 1 ==> r == highlight + 1
    ensures down && highlight >= n - 1 ==> r == 0
    ensures !down && highlight > 0 ==> r == highlight - 1
    ensures !down && highlight <= 0 ==> r == n - 1
  {
    var maxIndex := n - 1;
    if down then (if highlight < maxIndex then highlight + 1 else 0)
    else (if highlight > 0 then highlight - 1 else maxIndex)
  }

  /** A highlight that is none (-1) or a position among `n` options; with no
      options a down key leaves it on 0. */
  predicate HighlightOk(highlight: int, n: nat) {
    highlight == -1 || 0 <= highlight < n || highlight == 0
  }

  /** Navigation keeps the highlight admissible, and among at least one
      option always lands on one. */
  lemma NextHighlightInRange(highlight: int, n: nat, down: bool)
    requires HighlightOk(highlight, n)
    ensures HighlightOk(NextHighlight(highlight, n, down), n)
    ensures n > 0 ==> 0 <= NextHighlight(highlight, n, down) < n
  {
  }

  /** Down then up returns to a highlighted option (one not at the wrap point). */
  lemma DownThenUp(highlight: int, n: nat)
    requires 0 <= highlight < n - 1
    ensures NextHighlight(NextHighlight(highlight, n, true), n, false) == highlight
  {
  }

  /** Pressing down `k` times among `n` options from the first lands on
      option `k`, and after `n` presses back on the first. */
  lemma {:induction false} DownCycles(n: nat, k: nat)
    requires 0 < n && k <= n
    ensures Iterate(0, n, k) == if k == n then 0 else k
  {
    if k > 0 {
      DownCycles(n, k - 1);
    }
  }

  /** The highlight after `k` down keys from `start`. */
  function Iterate(start: int, n: nat, k: nat): int {
    if k == 0 then start else NextHighlight(Iterate(start, n, k - 1), n, true)
  }
}
