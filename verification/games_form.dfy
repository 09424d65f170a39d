/** The game form (`games/games-form/games-form.component.ts`): filling the
    form from a loaded game, and turning the form's values into the create
    and update bodies. Form values may be null, written `None`; JavaScript
    `x || undefined` turns an empty text, a zero number or a null into an
    absent field. Dates are always present objects, so `|| undefined` keeps
    them; `now` stands for `new Date()`. */
module GamesForm {
  import opened Wrappers
  import GameService
  import BaseMediaForm

  type Time = GameService.Time

  /** The values of the form's controls. */
  datatype GameFormValue = GameFormValue(
    title: Option<string>,
    review: Option<string>,
    developer: Option<string>,
    genreId: Option<int>,
    rating: Option<int>,
    releaseDate: Option<Time>,
    playDate: Option<Time>,
    isPlayed: Option<bool>)

  /** The create and update request bodies the client sends; absent fields are `None`. */
  datatype GameBody = GameBody(
    title: Option<string>,
    review: Option<string>,
    developer: Option<string>,
    genreId: Option<int>,
    rating: Option<int>,
    releaseDate: Option<Time>,
    playDate: Option<Time>,
    isPlayed: bool)

  /** `text || undefined`. */
  function TextOrAbsent(s: Option<string>): (r: Option<string>)
    ensures r.Some? <==> s.Some? && s.value != ""
    ensures r.Some? ==> r == s
  {
    if s.Some? && s.value != "" then s else None
  }

  /** `number || undefined`. */
  function NumberOrAbsent(n: Option<int>): (r: Option<int>)
    ensures r.Some? <==> n.Some? && n.value != 0
    ensures r.Some? ==> r == n
  {
    if n.Some? && n.value != 0 then n else None
  }

  /** The form's initial values. */
  function InitialForm(now: Time): (r: GameFormValue)
    ensures r.title == Some("") && r.genreId == Some(0) && r.rating == Some(0) && r.isPlayed == Some(false)
  {
    GameFormValue(Some(""), Some(""), Some(""), Some(0), Some(0), Some(now), Some(now), Some(false))
  }

  /** `mapFormToCreateDto`: the title verbatim, empty texts and a zero rating
      absent, the genre from the selected genre (0 or null absent), and a
      null played flag false. */
  function MapFormToCreateDto(form: GameFormValue, selectedGenre: Option<int>): (r: GameBody)
    ensures r.title == form.title
    ensures r.review == TextOrAbsent(form.review) && r.developer == TextOrAbsent(form.developer)
    ensures r.genreId == NumberOrAbsent(selectedGenre)
    ensures r.rating == NumberOrAbsent(form.rating)
    ensures r.releaseDate == form.releaseDate && r.playDate == form.playDate
    ensures r.isPlayed == form.isPlayed.GetOr(false)
  {
    GameBody(form.title, TextOrAbsent(form.review), TextOrAbsent(form.developer),
             NumberOrAbsent(selectedGenre), NumberOrAbsent(form.rating),
             form.releaseDate, form.playDate, form.isPlayed.GetOr(false))
  }

  /** `mapFormToUpdateDto`, written out separately in the source. */
  function MapFormToUpdateDto(form: GameFormValue, selectedGenre: Option<int>): (r: GameBody)
    ensures r.title == form.title
    ensures r.review == TextOrAbsent(form.review) && r.developer == TextOrAbsent(form.developer)
    ensures r.genreId == NumberOrAbsent(selectedGenre)
    ensures r.rating == NumberOrAbsent(form.rating)
    ensures r.releaseDate == form.releaseDate && r.playDate == form.playDate
    ensures r.isPlayed == form.isPlayed.GetOr(false)
  {
    GameBody(form.title, TextOrAbsent(form.review), TextOrAbsent(form.developer),
             NumberOrAbsent(selectedGenre), NumberOrAbsent(form.rating),
             form.releaseDate, form.playDate, form.isPlayed.GetOr(false))
  }

  /** `patchFormWithItem`: the game's fields into the form (a missing date
      becomes `now`), and its genre, or null, as the selected genre. */
  function PatchFormWithItem(game: GameService.GameDetailDto, now: Time): (r: (GameFormValue, Option<int>))
    ensures r.0.title == Some(game.title) && r.0.review == game.review && r.0.developer == game.developer
    ensures r.0.releaseDate == Some(game.releaseDate.GetOr(now)) && r.0.playDate == Some(game.playDate.GetOr(now))
    ensures r.0.isPlayed == Some(game.isPlayed)
    ensures r.1 == (if game.genreId.Some? then Some(game.genreId.value as int) else None)
    ensures r.0.genreId == r.1
  {
    var genre: Option<int> := if game.genreId.Some? then Some(game.genreId.value as int) else None;
    (GameFormValue(Some(game.title), game.review, game.developer, genre, game.rating,
                   Some(game.releaseDate.GetOr(now)), Some(game.playDate.GetOr(now)), Some(game.isPlayed)),
     genre)
  }

  /** The form's request body for a save: the update body in edit mode, the create body otherwise. */
  function SaveGame<D>(st: BaseMediaForm.FormState<D>, form: GameFormValue, formValid: bool): (r: BaseMediaForm.Save<GameBody, GameBody>)
    ensures !formValid ==> r.Refused?
    ensures formValid && BaseMediaForm.EditingMode(st) ==> r == BaseMediaForm.SendUpdate(st.itemId, MapFormToUpdateDto(form, st.selectedGenre))
    ensures formValid && !BaseMediaForm.EditingMode(st) ==> r == BaseMediaForm.SendCreate(MapFormToCreateDto(form, st.selectedGenre))
  {
    BaseMediaForm.SaveItem(st, formValid, MapFormToCreateDto(form, st.selectedGenre), MapFormToUpdateDto(form, st.selectedGenre))
  }

  // ----- properties -----

  /** The two mappings agree on every input. */
  lemma CreateAndUpdateAgree(form: GameFormValue, selectedGenre: Option<int>)
    ensures MapFormToCreateDto(form, selectedGenre) == MapFormToUpdateDto(form, selectedGenre)
  {
  }

  /** Loading a game and saving it untouched sends back its fields, except
      that an empty review or developer, a zero rating or genre become
      absent and a missing date becomes `now`. */
  lemma PatchThenSaveRoundTrip(game: GameService.GameDetailDto, now: Time)
    ensures var (form, genre) := PatchFormWithItem(game, now);
      var body := MapFormToUpdateDto(form, genre);
      && body.title == Some(game.title)
      && body.review == TextOrAbsent(game.review) && body.developer == TextOrAbsent(game.developer)
      && body.rating == NumberOrAbsent(game.rating)
      && (game.genreId.Some? && game.genreId.value != 0 ==> body.genreId == Some(game.genreId.value as int))
      && (game.genreId.None? ==> body.genreId.None?)
      && body.releaseDate == Some(game.releaseDate.GetOr(now)) && body.playDate == Some(game.playDate.GetOr(now))
      && body.isPlayed == game.isPlayed
  {
  }

  /** A fresh form, saved as it is, sends a blank title, no genre, no rating and not played. */
  lemma FreshFormBody(now: Time)
    ensures var body := MapFormToCreateDto(InitialForm(now), None);
      && body.title == Some("") && body.review.None? && body.genreId.None?
      && body.rating.None? && !body.isPlayed && body.playDate == Some(now)
  {
  }
}
