/** `GameService`: the game specialisation of the generic media service.
    It supplies the five hooks (list and detail projections, entity mapping,
    full-replace update, played toggle) and reuses every operation of
    `MediaStore` unchanged; it has no status-filter override. */
module GameService {
  import opened Wrappers
  import opened Table
  import opened Outcomes
  import MediaStore

  type Time = MediaStore.Time

  /** The status filter a game list request may carry. */
  datatype PlayFilter = All | Played | Queue

  /** A stored game; the id is the key it is stored under. Ratings are in
      tenths (the column is DECIMAL(3,1)). */
  datatype Game = Game(
    title: string,
    review: Option<string>,
    developer: Option<string>,
    genreId: Option<Id>,
    rating: Option<int>,
    releaseDate: Option<Time>,
    playDate: Option<Time>,
    isPlayed: bool,
    createdAt: Time)

  /** The create/update request body. */
  datatype GameFormDto = GameFormDto(
    title: string,
    review: Option<string>,
    developer: Option<string>,
    genreId: Option<Id>,
    rating: Option<int>,
    releaseDate: Option<Time>,
    playDate: Option<Time>,
    isPlayed: bool)

  datatype GameListDto = GameListDto(
    id: Id,
    title: string,
    playDate: Option<Time>,
    isPlayed: bool,
    genreName: Option<string>)

  datatype GameDetailDto = GameDetailDto(
    id: Id,
    title: string,
    review: Option<string>,
    developer: Option<string>,
    genreId: Option<Id>,
    genreName: Option<string>,
    rating: Option<int>,
    releaseDate: Option<Time>,
    playDate: Option<Time>,
    isPlayed: bool)

  /** The list projection, given the name of the joined genre (null when there is none). */
  function MapToListDto(id: Id, g: Game, genreName: Option<string>): GameListDto {
    GameListDto(id, g.title, g.playDate, g.isPlayed, genreName)
  }

  /** The detail projection, given the name of the joined genre. */
  function MapToDetailDto(id: Id, g: Game, genreName: Option<string>): GameDetailDto {
    GameDetailDto(id, g.title, g.review, g.developer, g.genreId, genreName,
                  g.rating, g.releaseDate, g.playDate, g.isPlayed)
  }

  /** A new entity from a request; `CreatedAt` is stamped afterwards by the base service. */
  function MapToEntity(dto: GameFormDto): Game {
    Game(dto.title, dto.review, dto.developer, dto.genreId, dto.rating,
         dto.releaseDate, dto.playDate, dto.isPlayed, 0)
  }

  /** The request's fields as an entity, keeping the creation stamp `createdAt`. */
  function FromForm(dto: GameFormDto, createdAt: Time): (g: Game)
    ensures g.createdAt == createdAt
    ensures MapToDetailDto(0, g, None) == MapToDetailDto(0, MapToEntity(dto), None)
  {
    MapToEntity(dto).(createdAt := createdAt)
  }

  /** `UpdateEntityFromDto`: every mutable field comes from the request; only
      the creation stamp survives from the stored game. */
  function UpdateEntityFromDto(g: Game, dto: GameFormDto): (r: Game)
    ensures r == FromForm(dto, g.createdAt)
  {
    g.(title := dto.title, review := dto.review, developer := dto.developer, genreId := dto.genreId,
       rating := dto.rating, releaseDate := dto.releaseDate,
       playDate := dto.playDate, isPlayed := dto.isPlayed)
  }

  /** `ToggleEntityStatus`: the played flag flips; a game that becomes
      played without a play date is stamped with `now`; nothing else changes. */
  function ToggleEntityStatus(g: Game, now: Time): (r: Game)
    ensures r.isPlayed == !g.isPlayed
    ensures g.playDate.Some? ==> r.playDate == g.playDate
    ensures g.playDate.None? ==> r.playDate == (if r.isPlayed then Some(now) else None)
    ensures r.(isPlayed := g.isPlayed, playDate := g.playDate) == g
  {
    var flipped := g.(isPlayed := !g.isPlayed);
    if flipped.isPlayed && flipped.playDate.None? then flipped.(playDate := Some(now)) else flipped
  }

  /** `SetCreatedAt`. */
  function SetCreatedAt(g: Game, now: Time): (r: Game)
    ensures r.createdAt == now && r.(createdAt := g.createdAt) == g
  {
    g.(createdAt := now)
  }

  /** `ON DELETE SET NULL` on the genre foreign key: only the genre reference changes, to null. */
  function ClearGenre(g: Game): (r: Game)
    ensures r.genreId.None? && r.(genreId := g.genreId) == g
  {
    g.(genreId := None)
  }

  /** The hooks the generic service is instantiated with. */
  const Hooks: MediaStore.Hooks<Game, GameFormDto, GameListDto, GameDetailDto> :=
    MediaStore.Hooks(
      (g: Game) => g.title,
      (g: Game) => g.genreId,
      (dto: GameFormDto) => dto.genreId,
      MapToListDto,
      MapToDetailDto,
      MapToEntity,
      UpdateEntityFromDto,
      ToggleEntityStatus,
      SetCreatedAt,
      ClearGenre)

  type GameStore = MediaStore.Store<Game>

  // ----- properties of the hooks -----

  /** Toggling twice restores the flag. Marking an unplayed game played
      always leaves a date, and a date the first toggle left is kept by the second. */
  lemma ToggleTwice(g: Game, t1: Time, t2: Time)
    ensures ToggleEntityStatus(ToggleEntityStatus(g, t1), t2).isPlayed == g.isPlayed
    ensures !g.isPlayed ==> ToggleEntityStatus(g, t1).playDate.Some?
    ensures ToggleEntityStatus(g, t1).playDate.Some? ==>
      ToggleEntityStatus(ToggleEntityStatus(g, t1), t2).playDate == ToggleEntityStatus(g, t1).playDate
  {
  }

  /** A play date, once set, is never changed or cleared by a toggle. */
  lemma ToggleNeverMovesDate(g: Game, now: Time)
    requires g.playDate.Some?
    ensures ToggleEntityStatus(g, now).playDate == g.playDate
  {
  }

  /** "Played ⇒ has a play date" holds after every toggle, whatever held before. */
  lemma ToggleEstablishesDateInvariant(g: Game, now: Time)
    ensures ToggleEntityStatus(g, now).isPlayed ==> ToggleEntityStatus(g, now).playDate.Some?
  {
  }

  /** Create and update do not enforce that invariant: a request may mark a
      game played without a play date, and it is stored as given. */
  lemma FormMayBreakDateInvariant(dto: GameFormDto, now: Time)
    requires dto.isPlayed && dto.playDate.None?
    ensures var g := SetCreatedAt(MapToEntity(dto), now); g.isPlayed && g.playDate.None?
  {
  }

  /** The detail of a freshly mapped game echoes the request on every shared field. */
  lemma DetailEchoesForm(id: Id, dto: GameFormDto, genreName: Option<string>, now: Time)
    ensures var d := MapToDetailDto(id, SetCreatedAt(MapToEntity(dto), now), genreName);
      && d.id == id && d.title == dto.title && d.review == dto.review && d.developer == dto.developer
      && d.genreId == dto.genreId && d.genreName == genreName
      && d.rating == dto.rating && d.releaseDate == dto.releaseDate
      && d.playDate == dto.playDate && d.isPlayed == dto.isPlayed
  {
  }

  /** Update is a full replace: its result does not depend on the stored
      fields other than `CreatedAt`, and applying it twice is applying it once. */
  lemma UpdateIsFullReplace(g1: Game, g2: Game, dto: GameFormDto)
    requires g1.createdAt == g2.createdAt
    ensures UpdateEntityFromDto(g1, dto) == UpdateEntityFromDto(g2, dto)
    ensures UpdateEntityFromDto(UpdateEntityFromDto(g1, dto), dto) == UpdateEntityFromDto(g1, dto)
    ensures UpdateEntityFromDto(g1, dto).createdAt == g1.createdAt
  {
  }

  /** An updated game reads back exactly as a game created from the same request. */
  lemma UpdateAgreesWithCreate(id: Id, g: Game, dto: GameFormDto, genreName: Option<string>, now: Time)
    ensures MapToDetailDto(id, UpdateEntityFromDto(g, dto), genreName)
         == MapToDetailDto(id, SetCreatedAt(MapToEntity(dto), now), genreName)
  {
  }

  /** The list and detail projections of one game agree on every field they share. */
  lemma ListAgreesWithDetail(id: Id, g: Game, genreName: Option<string>)
    ensures var l := MapToListDto(id, g, genreName);
      var d := MapToDetailDto(id, g, genreName);
      l.id == d.id && l.title == d.title && l.playDate == d.playDate
      && l.isPlayed == d.isPlayed && l.genreName == d.genreName
  {
  }

  /** A listed game's genre name is null exactly when it references no stored
      genre, and otherwise is that genre's name. */
  lemma ListGenreName(s: GameStore, id: Id)
    requires id in s.table.rows
    ensures var l := MediaStore.ListItem(s, Hooks, id);
      var g := s.table.rows[id];
      && (l.genreName.None? <==> g.genreId.None? || g.genreId.value !in s.genres)
      && (l.genreName.Some? ==> l.genreName.value == s.genres[g.genreId.value])
  {
  }

  /** The play filter never changes the game list. */
  lemma PlayFilterNeverNarrows(s: GameStore, search: Option<string>, genreId: Option<Id>, f: PlayFilter)
    requires Valid(s.table)
    ensures MediaStore.GetAll(s, Hooks, search, genreId, Some(f)) == MediaStore.GetAll<Game, GameFormDto, GameListDto, GameDetailDto, PlayFilter>(s, Hooks, search, genreId, None)
  {
  }

  /** Deleting a genre leaves every game that referenced it with no genre and
      the rest as it was, so listing by that genre gives nothing. */
  lemma GenreDeleteNullsGames(s: GameStore, genreId: Id, f: Option<PlayFilter>)
    requires Valid(s.table)
    ensures var r := MediaStore.GenreDeleted(s, Hooks, genreId);
      && r.table.rows.Keys == s.table.rows.Keys
      && (forall id :: id in s.table.rows && s.table.rows[id].genreId == Some(genreId) ==>
            r.table.rows[id] == s.table.rows[id].(genreId := None))
      && (forall id :: id in s.table.rows && s.table.rows[id].genreId != Some(genreId) ==>
            r.table.rows[id] == s.table.rows[id])
      && MediaStore.GetAll(r, Hooks, None, Some(genreId), f) == []
  {
    MediaStore.GenreDeletedUnlinks(s, Hooks, genreId, f);
  }
}
