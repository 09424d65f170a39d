/** The data-annotation rules on the movie and game request bodies, as ASP.NET
    model binding checks them before a controller action runs: `[Required]`
    rejects a blank string, `[StringLength(n)]` bounds a present string, and
    `[Range(a, b)]` bounds a present number. A failed check yields one model
    state error per failing field, in declaration order. Ratings are in tenths. */
module DtoValidation {
  import opened Wrappers
  import opened Text
  import MovieService
  import GameService

  const TitleMaxLength: nat := 100
  const ReviewMaxLength: nat := 500
  const AttributionMaxLength: nat := 50
  const DurationMin: int := 1
  const DurationMax: int := 59999
  /** `[Range(0, 10)]` on the rating: the integer overload of the attribute. */
  const RatingMin: int := 0
  const RatingMax: int := 10
  /** The ratings, in tenths, that the rounding of `RoundHalfEven` brings into `RatingMin..RatingMax`. */
  const AcceptedRatingMinTenths: int := -5
  const AcceptedRatingMaxTenths: int := 105

  /** `[Required]` on a string: present and not white space only. */
  predicate RequiredOk(s: string) {
    !IsBlank(s)
  }

  /** `[StringLength(max)]`: an absent string passes. */
  predicate LengthOk(s: Option<string>, max: nat) {
    s.None? || |s.value| <= max
  }

  /** `[Range(lo, hi)]`: an absent number passes. */
  predicate RangeOk(x: Option<int>, lo: int, hi: int) {
    x.None? || lo <= x.value <= hi
  }

  /** `Convert.ToInt32` on a decimal, which the integer `[Range]` applies to
      the value before comparing: the nearest integer, a tie going to the
      even one. The argument is in tenths. */
  function RoundHalfEven(tenths: int): (r: int)
    ensures tenths - 5 <= 10 * r <= tenths + 5
    ensures 10 * r - tenths == 5 || 10 * r - tenths == -5 ==> r % 2 == 0
  {
    var q := tenths / 10;
    var rem := tenths % 10;
    if rem < 5 then q
    else if rem > 5 then q + 1
    else if q % 2 == 0 then q
    else q + 1
  }

  /** `[Range(0, 10)]` on a decimal rating: an absent rating passes; a present
      one passes when its rounded value lies in the range. */
  predicate RatingOk(rating: Option<int>) {
    rating.None? || RatingMin <= RoundHalfEven(rating.value) <= RatingMax
  }

  /** Because of the rounding, the ratings the attribute accepts are -0.5 to
      10.5, not 0 to 10: -0.5 and 10.5 round to the even 0 and 10, while
      -0.6 and 10.6 round to -1 and 11. */
  lemma RatingAcceptedTenths(tenths: int)
    ensures RatingOk(Some(tenths)) <==> AcceptedRatingMinTenths <= tenths <= AcceptedRatingMaxTenths
  {
  }

  /** The fields of a movie request that fail their annotations, in declaration order. */
  function MovieFormErrors(dto: MovieService.MovieFormDto): (r: seq<string>)
    ensures |r| <= 5
    ensures "Title" in r <==> !(RequiredOk(dto.title) && |dto.title| <= TitleMaxLength)
    ensures "Review" in r <==> !LengthOk(dto.review, ReviewMaxLength)
    ensures "Director" in r <==> !LengthOk(dto.director, AttributionMaxLength)
    ensures "Duration" in r <==> !RangeOk(dto.duration, DurationMin, DurationMax)
    ensures "Rating" in r <==> !RatingOk(dto.rating)
  {
    assert "Director"[1] != "Duration"[1];
    (if RequiredOk(dto.title) && |dto.title| <= TitleMaxLength then [] else ["Title"])
    + (if LengthOk(dto.review, ReviewMaxLength) then [] else ["Review"])
    + (if LengthOk(dto.director, AttributionMaxLength) then [] else ["Director"])
    + (if RangeOk(dto.duration, DurationMin, DurationMax) then [] else ["Duration"])
    + (if RatingOk(dto.rating) then [] else ["Rating"])
  }

  /** The model state of a movie request is valid. */
  predicate MovieFormValid(dto: MovieService.MovieFormDto) {
    MovieFormErrors(dto) == []
  }

  /** The fields of a game request that fail their annotations, in declaration order. */
  function GameFormErrors(dto: GameService.GameFormDto): (r: seq<string>)
    ensures |r| <= 4
    ensures "Title" in r <==> !(RequiredOk(dto.title) && |dto.title| <= TitleMaxLength)
    ensures "Review" in r <==> !LengthOk(dto.review, ReviewMaxLength)
    ensures "Developer" in r <==> !LengthOk(dto.developer, AttributionMaxLength)
    ensures "Rating" in r <==> !RatingOk(dto.rating)
  {
    (if RequiredOk(dto.title) && |dto.title| <= TitleMaxLength then [] else ["Title"])
    + (if LengthOk(dto.review, ReviewMaxLength) then [] else ["Review"])
    + (if LengthOk(dto.developer, AttributionMaxLength) then [] else ["Developer"])
    + (if RatingOk(dto.rating) then [] else ["Rating"])
  }

  /** The model state of a game request is valid. */
  predicate GameFormValid(dto: GameService.GameFormDto) {
    GameFormErrors(dto) == []
  }

  /** A movie request is valid exactly when every annotated field passes; the
      genre id and the dates are not constrained. */
  lemma MovieFormValidIff(dto: MovieService.MovieFormDto)
    ensures MovieFormValid(dto) <==>
      && RequiredOk(dto.title) && |dto.title| <= TitleMaxLength
      && LengthOk(dto.review, ReviewMaxLength)
      && LengthOk(dto.director, AttributionMaxLength)
      && RangeOk(dto.duration, DurationMin, DurationMax)
      && RangeOk(dto.rating, AcceptedRatingMinTenths, AcceptedRatingMaxTenths)
  {
    if dto.rating.Some? {
      RatingAcceptedTenths(dto.rating.value);
    }
    var r := MovieFormErrors(dto);
    if r != [] {
      assert r[0] in r;
    }
  }

  /** A game request is valid exactly when every annotated field passes. */
  lemma GameFormValidIff(dto: GameService.GameFormDto)
    ensures GameFormValid(dto) <==>
      && RequiredOk(dto.title) && |dto.title| <= TitleMaxLength
      && LengthOk(dto.review, ReviewMaxLength)
      && LengthOk(dto.developer, AttributionMaxLength)
      && RangeOk(dto.rating, AcceptedRatingMinTenths, AcceptedRatingMaxTenths)
  {
    if dto.rating.Some? {
      RatingAcceptedTenths(dto.rating.value);
    }
    var r := GameFormErrors(dto);
    if r != [] {
      assert r[0] in r;
    }
  }

  /** The column limits of the movie table: a required title of at most 100
      characters, review at most 500, director at most 50, and a rating that
      fits DECIMAL(3,1). */
  predicate MovieFitsSchema(m: MovieService.Movie) {
    && |m.title| <= TitleMaxLength
    && LengthOk(m.review, ReviewMaxLength)
    && LengthOk(m.director, AttributionMaxLength)
    && RangeOk(m.rating, -999, 999)
  }

  /** The column limits of the game table. */
  predicate GameFitsSchema(g: GameService.Game) {
    && |g.title| <= TitleMaxLength
    && LengthOk(g.review, ReviewMaxLength)
    && LengthOk(g.developer, AttributionMaxLength)
    && RangeOk(g.rating, -999, 999)
  }

  /** A movie created or updated from a valid request fits its columns. */
  lemma ValidMovieFormFitsSchema(dto: MovieService.MovieFormDto, m: MovieService.Movie, now: MovieService.Time)
    requires MovieFormValid(dto)
    ensures MovieFitsSchema(MovieService.SetCreatedAt(MovieService.MapToEntity(dto), now))
    ensures MovieFitsSchema(MovieService.UpdateEntityFromDto(m, dto))
  {
    MovieFormValidIff(dto);
  }

  /** A game created or updated from a valid request fits its columns. */
  lemma ValidGameFormFitsSchema(dto: GameService.GameFormDto, g: GameService.Game, now: GameService.Time)
    requires GameFormValid(dto)
    ensures GameFitsSchema(GameService.SetCreatedAt(GameService.MapToEntity(dto), now))
    ensures GameFitsSchema(GameService.UpdateEntityFromDto(g, dto))
  {
    GameFormValidIff(dto);
  }

  /** Toggling a status never moves a record out of its columns. */
  lemma ToggleKeepsSchema(m: MovieService.Movie, g: GameService.Game, now: MovieService.Time)
    ensures MovieFitsSchema(m) ==> MovieFitsSchema(MovieService.ToggleEntityStatus(m, now))
    ensures GameFitsSchema(g) ==> GameFitsSchema(GameService.ToggleEntityStatus(g, now))
  {
  }

  /** Boundary cases: a 100-character title passes, a 101-character one fails,
      a blank title fails, and a duration of 0 or 60000 fails. */
  lemma MovieFormBoundaries(dto: MovieService.MovieFormDto)
    requires MovieFormValid(dto)
    ensures !MovieFormValid(dto.(title := seq(101, _ => 'a')))
    ensures MovieFormValid(dto.(title := seq(100, _ => 'a')))
    ensures !MovieFormValid(dto.(title := "   "))
    ensures !MovieFormValid(dto.(duration := Some(0))) && !MovieFormValid(dto.(duration := Some(60000)))
    ensures MovieFormValid(dto.(duration := Some(59999)))
  {
    MovieTitleBoundaries(dto);
    MovieDurationBoundaries(dto);
  }

  /** The title cases of `MovieFormBoundaries`. */
  lemma MovieTitleBoundaries(dto: MovieService.MovieFormDto)
    requires MovieFormValid(dto)
    ensures !MovieFormValid(dto.(title := seq(101, _ => 'a')))
    ensures MovieFormValid(dto.(title := seq(100, _ => 'a')))
    ensures !MovieFormValid(dto.(title := "   "))
  {
    MovieFormValidIff(dto);
    MovieFormValidIff(dto.(title := seq(101, _ => 'a')));
    var t := seq(100, _ => 'a');
    assert t[0] == 'a' && !IsWhite(t[0]);
    MovieFormValidIff(dto.(title := t));
    MovieFormValidIff(dto.(title := "   "));
  }

  /** The duration cases of `MovieFormBoundaries`. */
  lemma MovieDurationBoundaries(dto: MovieService.MovieFormDto)
    requires MovieFormValid(dto)
    ensures !MovieFormValid(dto.(duration := Some(0))) && !MovieFormValid(dto.(duration := Some(60000)))
    ensures MovieFormValid(dto.(duration := Some(59999)))
  {
    MovieFormValidIff(dto);
    MovieFormValidIff(dto.(duration := Some(0)));
    MovieFormValidIff(dto.(duration := Some(60000)));
    MovieFormValidIff(dto.(duration := Some(59999)));
  }

  /** Rating boundary cases: -0.5 and 10.5 pass, -0.6 and 10.6 fail. */
  lemma MovieRatingBoundaries(dto: MovieService.MovieFormDto)
    requires MovieFormValid(dto)
    ensures MovieFormValid(dto.(rating := Some(-5))) && MovieFormValid(dto.(rating := Some(105)))
    ensures !MovieFormValid(dto.(rating := Some(-6))) && !MovieFormValid(dto.(rating := Some(106)))
  {
    MovieFormValidIff(dto);
    MovieFormValidIff(dto.(rating := Some(-5)));
    MovieFormValidIff(dto.(rating := Some(105)));
    MovieFormValidIff(dto.(rating := Some(-6)));
    MovieFormValidIff(dto.(rating := Some(106)));
  }
}
