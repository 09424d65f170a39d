/** The star rating control (`StarRatingComponent`): ten stars, each clickable
    on its left half (half a star less) or right half. Ratings are held in
    tenths of a star point, so star `s` stands for `10 * s` and its left half
    for `10 * s - 5`; the control's 0..10 scale is 0..100 here. The click
    position is reduced to the boolean `leftHalf`, and the value a click sends
    to the form control is the second component of `OnStarClick`'s result. */
module StarRating {
  import opened Wrappers

  const MaxStars: nat := 10

  datatype State = State(rating: int, hover: int, disabled: bool)

  datatype Fill = Empty | Half | Full

  /** The initial state: no rating, no hover, enabled. */
  const Initial: State := State(0, 0, false)

  /** The stars shown, 1 to 10. */
  function Stars(): (r: seq<nat>)
    ensures |r| == MaxStars
    ensures forall i :: 0 <= i < |r| ==> r[i] == i + 1
  {
    seq(MaxStars, i => i + 1)
  }

  /** A rating on the half-star grid of the control: 0, 0.5, ..., 10. */
  predicate OnGrid(r: int) {
    0 <= r <= 10 * MaxStars && r % 5 == 0
  }

  /** The rating a point on a star proposes. */
  function Proposed(star: nat, leftHalf: bool): (r: int)
    requires 1 <= star <= MaxStars
    ensures OnGrid(r) && r > 0
    ensures (r % 10 == 5) <==> leftHalf
  {
    if leftHalf then 10 * star - 5 else 10 * star
  }

  /** `onStarClick`: ignored when disabled; otherwise a click on the current
      rating clears it, and any other click sets the proposed rating. The
      new rating is emitted. */
  function OnStarClick(st: State, star: nat, leftHalf: bool): (r: (State, Option<int>))
    requires 1 <= star <= MaxStars
    ensures st.disabled ==> r == (st, None)
    ensures !st.disabled ==> r.1 == Some(r.0.rating) && OnGrid(r.0.rating)
    ensures !st.disabled ==> r.0 == st.(rating := r.0.rating)
    ensures !st.disabled ==> (r.0.rating == 0 <==> st.rating == Proposed(star, leftHalf))
    ensures !st.disabled && r.0.rating != 0 ==> r.0.rating == Proposed(star, leftHalf)
  {
    if st.disabled then (st, None)
    else
      var p := Proposed(star, leftHalf);
      var final := if st.rating == p then 0 else p;
      (st.(rating := final), Some(final))
  }

  /** `onStarHover`: ignored when disabled; otherwise the hover is the proposed rating. */
  function OnStarHover(st: State, star: nat, leftHalf: bool): (r: State)
    requires 1 <= star <= MaxStars
    ensures st.disabled ==> r == st
    ensures !st.disabled ==> r == st.(hover := Proposed(star, leftHalf))
  {
    if st.disabled then st else st.(hover := Proposed(star, leftHalf))
  }

  /** `onMouseLeave`: the hover goes. */
  function OnMouseLeave(st: State): (r: State)
    ensures r.hover == 0 && r.(hover := st.hover) == st
  {
    st.(hover := 0)
  }

  /** `writeValue`: null and zero set no rating. */
  function WriteValue(st: State, value: Option<int>): (r: State)
    ensures r.rating == value.GetOr(0) && r.(rating := st.rating) == st
  {
    st.(rating := value.GetOr(0))
  }

  /** `setDisabledState`. */
  function SetDisabledState(st: State, disabled: bool): (r: State)
    ensures r.disabled == disabled && r.(disabled := st.disabled) == st
  {
    st.(disabled := disabled)
  }

  /** The rating shown: the hover when there is one, else the rating. */
  function Displayed(st: State): (r: int)
    ensures st.hover != 0 ==> r == st.hover
    ensures st.hover == 0 ==> r == st.rating
  {
    if st.hover != 0 then st.hover else st.rating
  }

  /** `getStarFillPercentage`: full up to the shown rating, half for the star
      the shown rating ends half-way into. */
  function FillOf(st: State, star: nat): (r: Fill)
    ensures r == Full <==> 10 * star <= Displayed(st)
    ensures r == Half <==> 10 * star - 5 == Displayed(st)
  {
    var shown := Displayed(st);
    if 10 * star <= shown then Full
    else if 10 * star - 5 == shown then Half
    else Empty
  }

  // ----- reading the stars back -----

  /** The value the first `k` stars show: a full star counts 10, a half star 5. */
  function StarsValue(st: State, k: nat): nat {
    if k == 0 then 0
    else StarsValue(st, k - 1) + (match FillOf(st, k) case Full => 10 case Half => 5 case Empty => 0)
  }

  /** Up to any star, the picture shows the rating clipped to that star. */
  lemma {:induction false} StarsValueClipped(st: State, k: nat)
    requires OnGrid(Displayed(st))
    ensures StarsValue(st, k) == if Displayed(st) < 10 * k then Displayed(st) else 10 * k
  {
    if k > 0 {
      StarsValueClipped(st, k - 1);
    }
  }

  /** The ten stars show exactly the displayed rating when it is on the grid. */
  lemma StarsShowDisplayed(st: State)
    requires OnGrid(Displayed(st))
    ensures StarsValue(st, MaxStars) == Displayed(st)
  {
    StarsValueClipped(st, MaxStars);
  }

  // ----- properties across events -----

  /** Clicking the same point twice from no rating sets and then clears it. */
  lemma ClickTwiceClears(st: State, star: nat, leftHalf: bool)
    requires 1 <= star <= MaxStars && !st.disabled && st.rating != Proposed(star, leftHalf)
    ensures var (st1, _) := OnStarClick(st, star, leftHalf);
      && st1.rating == Proposed(star, leftHalf)
      && OnStarClick(st1, star, leftHalf).0.rating == 0
  {
  }

  /** Click, hover and leave each keep the rating on the half-star grid; a
      value written from outside through `WriteValue` need not be on it. */
  lemma EventsKeepGrid(st: State, star: nat, leftHalf: bool)
    requires 1 <= star <= MaxStars && OnGrid(st.rating)
    ensures OnGrid(OnStarClick(st, star, leftHalf).0.rating)
    ensures OnGrid(OnStarHover(st, star, leftHalf).rating)
    ensures OnGrid(OnMouseLeave(st).rating)
  {
  }

  /** Hovering and then leaving shows the rating again, unchanged. */
  lemma HoverThenLeave(st: State, star: nat, leftHalf: bool)
    requires 1 <= star <= MaxStars && st.hover == 0
    ensures Displayed(OnMouseLeave(OnStarHover(st, star, leftHalf))) == Displayed(st)
    ensures OnMouseLeave(OnStarHover(st, star, leftHalf)).rating == st.rating
  {
  }

  /** A 7.5 rating shows seven full stars, one half star and two empty ones. */
  lemma SevenAndAHalf()
    ensures var st := WriteValue(Initial, Some(75));
      && (forall star :: 1 <= star <= 7 ==> FillOf(st, star) == Full)
      && FillOf(st, 8) == Half
      && FillOf(st, 9) == Empty && FillOf(st, 10) == Empty
  {
  }
}
