# MoviesAndStuff media tracker — a Dafny model

MoviesAndStuff keeps a personal list of movies and games, each with an
optional genre, and a genre directory that says which media types a genre
applies to. This project models its core in Dafny and proves properties of
that model. The core has three parts.

- **The ASP.NET server.**
  - The generic media service `BaseMediaService` and its movie and game
    specialisations.
  - The genre service.
  - The four REST controllers.
  - The data-annotation rules on the request bodies.
- **The Angular client's pure logic.**
  - The `HH:MM` duration input and the duration pipe.
  - The half-star rating control.
  - Both dropdown components.
  - The generic list and form pages and their game specialisations.
  - The game list query builder, the error-message table and the toast stack.
- **How the state is represented.**
  - Persistence is a finite map from identity ids to records. Ids come from a
    counter that is never reused, as SQL identity columns work.
  - "Now" is a parameter.
  - The outcome of `SaveChangesAsync` is a parameter (`Commit`): saved, a
    concurrency conflict, or another database failure.
  - A service call either returns a value or throws one of the exception
    kinds the controllers catch (`Outcome`, `Failure`).

Each source component is one module in one file:

| file | module | models |
|---|---|---|
| `media_store.dfy` | `MediaStore` | the base media service, generic over its hooks |
| `movie_service.dfy`, `game_service.dfy` | `MovieService`, `GameService` | the movie and game hooks |
| `genre_service.dfy` | `GenreService` | the genre service |
| `base_media_controller.dfy` | `BaseMediaController` | the generic REST controller |
| `plain_answers.dfy` | `PlainAnswers` | the answer tables the concrete media controllers use |
| `movies_controller.dfy`, `games_controller.dfy`, `genres_controller.dfy` | `MoviesController`, `GamesController`, `GenresController` | the three concrete controllers |
| `dto_validation.dfy` | `DtoValidation` | the annotation rules on the movie and game request bodies |
| `duration_input.dfy`, `duration_pipe.dfy`, `star_rating.dfy` | `DurationInput`, `DurationPipe`, `StarRating` | the client controls |
| `dropdown_core.dfy`, `dropdown.dfy`, `dropdown_legacy.dfy` | `DropdownCore`, `Dropdown`, `DropdownLegacy` | the shared option logic, the signal-based dropdown, the earlier dropdown |
| `base_media_list.dfy`, `games_list.dfy`, `games_query.dfy` | `BaseMediaList`, `GamesList`, `GamesQuery` | the list pages and the game list request |
| `base_media_form.dfy`, `games_form.dfy` | `BaseMediaForm`, `GamesForm` | the form pages |
| `error_handler.dfy`, `toast.dfy` | `ErrorHandler`, `Toast` | the error messages and the toast stack |

These files hold generic helpers shared by the modules above:

- `wrappers.dfy`;
- `seqs.dfy`: filter, map, stable sort by key;
- `text.dfy`: trimming, ASCII lower-casing, containment, splitting, decimal digits;
- `table.dfy`: the id-keyed table;
- `outcomes.dfy`;
- `http.dfy`.

## Representation choices

- **Ratings.** Ratings are integers in tenths of a point, since the column is
  `DECIMAL(3,1)`. The star control's half stars are multiples of 5 tenths.
- **Strings.** Strings are sequences of characters. Lower-casing is ASCII
  only, and white space is the ASCII white space characters. Lengths are
  counted in characters, not in UTF-16 code units.
- **Form bodies.** The base service has one form-body type. The
  specialisations declare separate create and update bodies, but both hooks
  read the same fields from each. So the model has one form body per kind,
  with the fields the hooks read. The movie rules follow `CreateMovieDto` and
  the game rules follow `UpdateGameDto`.
- **The genre controller's body.** The genre controller binds `GenreFormDto`,
  which has only a name and media type ids. The genre service reads an order
  and an active flag as well. The model's genre body carries all four fields,
  and it is validated by `GenreFormDto`'s annotations.
- **Genre ids on the client.** The list page keeps genre ids as strings and
  the form page as numbers, as their declared types say.

## Model

| member | source | states |
|---|---|---|
| MediaStore.GenreNameOf | MoviesAndStuff.Api/MoviesAndStuff.Api/Services/MovieService.cs:33 | the joined genre name is present exactly when the record references a stored genre, and then it is that genre's name |
| MediaStore.ApplySearchFilter | MoviesAndStuff.Api/MoviesAndStuff.Api/Services/BaseMediaService.cs:128-135 | a null, empty or white-space search keeps every row; otherwise a row is kept exactly when its lower-cased title contains the lower-cased, trimmed search; no row is duplicated |
| MediaStore.ApplyGenreFilter | MoviesAndStuff.Api/MoviesAndStuff.Api/Services/BaseMediaService.cs:137-143 | an absent genre id keeps every row; a present one keeps exactly the rows whose genre id equals it |
| MediaStore.ApplyCustomFilter | MoviesAndStuff.Api/MoviesAndStuff.Api/Services/BaseMediaService.cs:145-148 | the base status hook leaves the rows as they are, whatever the filter |
| MediaStore.NarrowingKeepsOrder | MoviesAndStuff.Api/MoviesAndStuff.Api/Services/BaseMediaService.cs:30-34 | the search and genre narrowings drop rows but keep the order of the model's ascending-id enumeration |
| MediaStore.Selected | MoviesAndStuff.Api/MoviesAndStuff.Api/Services/BaseMediaService.cs:30-34 | the rows left after both narrowings are exactly the stored records passing search and genre, in the model's ascending-id enumeration |
| MediaStore.SelectedCount | MoviesAndStuff.Api/MoviesAndStuff.Api/Services/BaseMediaService.cs:30-34 | there is one selected row per matching id |
| MediaStore.Project | MoviesAndStuff.Api/MoviesAndStuff.Api/Services/BaseMediaService.cs:36-38 | one list projection per selected row, in the same order |
| MediaStore.ProjectSelected | MoviesAndStuff.Api/MoviesAndStuff.Api/Services/BaseMediaService.cs:28-39 | the projections of the selected rows are exactly the projections of the matching ids |
| MediaStore.GetAll | MoviesAndStuff.Api/MoviesAndStuff.Api/Services/BaseMediaService.cs:28-39 | the list has one item per stored record passing the search and genre narrowings; each such record is listed and nothing else is |
| MediaStore.StatusFilterNeverNarrows | MoviesAndStuff.Api/MoviesAndStuff.Api/Services/BaseMediaService.cs:145-148 | any two status filters give the same list |
| MediaStore.UnfilteredListsEverything | MoviesAndStuff.Api/MoviesAndStuff.Api/Services/BaseMediaService.cs:28-39 | with no search and no genre the list has one item per stored record |
| MediaStore.GetById | MoviesAndStuff.Api/MoviesAndStuff.Api/Services/BaseMediaService.cs:44-50 | null exactly for an absent id; otherwise the detail projection of the stored record with its joined genre name |
| MediaStore.ValidateGenre | MoviesAndStuff.Api/MoviesAndStuff.Api/Services/BaseMediaService.cs:174-179 | raises the argument error "Invalid Genre ID" exactly when no stored genre has the id |
| MediaStore.ValidateFormDto | MoviesAndStuff.Api/MoviesAndStuff.Api/Services/BaseMediaService.cs:150-164 | only a present genre id is checked; validation fails exactly when it names no stored genre |
| MediaStore.Create | MoviesAndStuff.Api/MoviesAndStuff.Api/Services/BaseMediaService.cs:55-67 | an unknown genre or a failed commit throws and leaves the store unchanged; otherwise exactly one record is added under the next id, stamped with now, and its detail is returned |
| MediaStore.Update | MoviesAndStuff.Api/MoviesAndStuff.Api/Services/BaseMediaService.cs:72-85 | an absent id answers false with no change, before the genre is checked; an unknown genre or a failed commit throws with no field overwritten; otherwise answers true and replaces only that record by the update hook |
| MediaStore.ToggleStatus | MoviesAndStuff.Api/MoviesAndStuff.Api/Services/BaseMediaService.cs:90-101 | false exactly for an absent id, and then nothing changes; otherwise only that record is toggled |
| MediaStore.Delete | MoviesAndStuff.Api/MoviesAndStuff.Api/Services/BaseMediaService.cs:106-117 | false exactly for an absent id, and then nothing changes; otherwise only that id goes and every other record is unchanged |
| MediaStore.GenreDeleted | MoviesAndStuff.Api/MoviesAndStuff.Api/Data/Configurations/MovieConfiguration.cs:19-22 | deleting a genre nulls the genre of exactly the records that referenced it, leaves every other record as it was, keeps the set of ids and the id counter, and removes only that genre from the names |
| MediaStore.GenreDeletedUnlinks | MoviesAndStuff.Api/MoviesAndStuff.Api/Data/Configurations/MovieConfiguration.cs:19-22 | after a genre is deleted no record references it, listing by it gives nothing, and each record that referenced it shows no genre name |
| MediaStore.CreateThenGetById | MoviesAndStuff.Api/MoviesAndStuff.Api/Services/BaseMediaService.cs:55-67 | the detail a successful create returns is what reading the new id gives |
| MediaStore.DeletedIdIsAbsent | MoviesAndStuff.Api/MoviesAndStuff.Api/Services/BaseMediaService.cs:106-117 | after a delete, reading the id answers null, and updating, toggling or deleting it answers false with no change |
| MovieService.FromForm | MoviesAndStuff.Api/MoviesAndStuff.Api/Services/MovieService.cs:55-69 | the request as a movie carrying a given creation stamp, which reads back like the mapped entity |
| MovieService.UpdateEntityFromDto | MoviesAndStuff.Api/MoviesAndStuff.Api/Services/MovieService.cs:71-82 | the updated movie is the request's movie with the stored creation stamp: a full replace |
| MovieService.ToggleEntityStatus | MoviesAndStuff.Api/MoviesAndStuff.Api/Services/MovieService.cs:84-92 | the watched flag is negated; an existing watch date is kept; a missing one becomes now exactly when the movie becomes watched; nothing else changes |
| MovieService.SetCreatedAt | MoviesAndStuff.Api/MoviesAndStuff.Api/Services/BaseMediaService.cs:166-172 | only the creation stamp changes, to now |
| MovieService.ClearGenre | MoviesAndStuff.Api/MoviesAndStuff.Api/Data/Configurations/MovieConfiguration.cs:19-22 | only the genre reference changes, to null |
| MovieService.ToggleTwice | MoviesAndStuff.Api/MoviesAndStuff.Api/Services/MovieService.cs:84-92 | toggling twice restores the flag; marking watched always leaves a date; a date the first toggle left survives the second |
| MovieService.ToggleNeverMovesDate | MoviesAndStuff.Api/MoviesAndStuff.Api/Services/MovieService.cs:88-91 | a watch date, once set, is never changed or cleared by a toggle |
| MovieService.ToggleEstablishesDateInvariant | MoviesAndStuff.Api/MoviesAndStuff.Api/Services/MovieService.cs:84-92 | after any toggle, a watched movie has a watch date |
| MovieService.FormMayBreakDateInvariant | MoviesAndStuff.Api/MoviesAndStuff.Api/Services/MovieService.cs:55-69 | a request may store a watched movie without a watch date |
| MovieService.DetailEchoesForm | MoviesAndStuff.Api/MoviesAndStuff.Api/Services/MovieService.cs:37-69 | the detail of a freshly mapped movie agrees with the request on every shared field |
| MovieService.UpdateIsFullReplace | MoviesAndStuff.Api/MoviesAndStuff.Api/Services/MovieService.cs:71-82 | the update result depends only on the request and the creation stamp; updating twice is updating once; the stamp is kept |
| MovieService.UpdateAgreesWithCreate | MoviesAndStuff.Api/MoviesAndStuff.Api/Services/MovieService.cs:37-82 | an updated movie reads back exactly like one created from the same request |
| MovieService.ListAgreesWithDetail | MoviesAndStuff.Api/MoviesAndStuff.Api/Services/MovieService.cs:25-53 | the list and detail projections agree on every field they share |
| MovieService.ListGenreName | MoviesAndStuff.Api/MoviesAndStuff.Api/Services/MovieService.cs:27-34 | a listed movie's genre name is null exactly when it references no stored genre, and otherwise is that genre's name |
| MovieService.WatchFilterNeverNarrows | MoviesAndStuff.Api/MoviesAndStuff.Api/Services/MovieService.cs:11-98 | the movie service overrides no status hook, so any watch filter gives the unfiltered list |
| MovieService.MatrixScenario | MoviesAndStuff.Api/MoviesAndStuff.Api/Services/MovieService.cs:84-92 | creating an unwatched movie and toggling it at t1 and t2 marks it watched stamped t1, then unwatched still stamped t1 |
| MovieService.GenreDeleteNullsMovies | MoviesAndStuff.Api/MoviesAndStuff.Api/Data/Configurations/MovieConfiguration.cs:19-22 | deleting a genre keeps every movie, nulls the genre of exactly the movies that had it, and leaves nothing to list under it |
| GameService.FromForm | MoviesAndStuff.Api/MoviesAndStuff.Api/Services/GameService.cs:54-67 | the request as a game carrying a given creation stamp, which reads back like the mapped entity |
| GameService.UpdateEntityFromDto | MoviesAndStuff.Api/MoviesAndStuff.Api/Services/GameService.cs:69-79 | the updated game is the request's game with the stored creation stamp: all eight mutable fields replaced |
| GameService.ToggleEntityStatus | MoviesAndStuff.Api/MoviesAndStuff.Api/Services/GameService.cs:81-89 | the played flag is negated; an existing play date is kept; a missing one becomes now exactly when the game becomes played; nothing else changes |
| GameService.SetCreatedAt | MoviesAndStuff.Api/MoviesAndStuff.Api/Services/BaseMediaService.cs:166-172 | only the creation stamp changes, to now |
| GameService.ClearGenre | MoviesAndStuff.Api/MoviesAndStuff.Api/Data/Configurations/GameConfiguration.cs:20-23 | only the genre reference changes, to null |
| GameService.ToggleTwice | MoviesAndStuff.Api/MoviesAndStuff.Api/Services/GameService.cs:81-89 | toggling twice restores the flag and keeps a play date already set |
| GameService.ToggleNeverMovesDate | MoviesAndStuff.Api/MoviesAndStuff.Api/Services/GameService.cs:81-89 | a play date, once set, is never changed or cleared by a toggle |
| GameService.ToggleEstablishesDateInvariant | MoviesAndStuff.Api/MoviesAndStuff.Api/Services/GameService.cs:81-89 | after any toggle, a played game has a play date |
| GameService.FormMayBreakDateInvariant | MoviesAndStuff.Api/MoviesAndStuff.Api/Services/GameService.cs:54-67 | a request may store a played game without a play date |
| GameService.DetailEchoesForm | MoviesAndStuff.Api/MoviesAndStuff.Api/Services/GameService.cs:37-67 | the detail of a freshly mapped game agrees with the request on every shared field |
| GameService.UpdateIsFullReplace | MoviesAndStuff.Api/MoviesAndStuff.Api/Services/GameService.cs:69-79 | the update result depends only on the request and the creation stamp; updating twice is updating once |
| GameService.UpdateAgreesWithCreate | MoviesAndStuff.Api/MoviesAndStuff.Api/Services/GameService.cs:37-79 | an updated game reads back exactly like one created from the same request |
| GameService.ListAgreesWithDetail | MoviesAndStuff.Api/MoviesAndStuff.Api/Services/GameService.cs:25-52 | the list and detail projections agree on every field they share |
| GameService.ListGenreName | MoviesAndStuff.Api/MoviesAndStuff.Api/Services/GameService.cs:27-34 | a listed game's genre name is null exactly when it references no stored genre |
| GameService.PlayFilterNeverNarrows | MoviesAndStuff.Api/MoviesAndStuff.Api/Services/GameService.cs:11-95 | the game service overrides no status hook, so any play filter gives the unfiltered list |
| GameService.GenreDeleteNullsGames | MoviesAndStuff.Api/MoviesAndStuff.Api/Data/Configurations/GameConfiguration.cs:20-23 | deleting a genre keeps every game, nulls the genre of exactly the games that had it, and leaves nothing to list under it |
| GenreService.GenreNames | MoviesAndStuff.Api/MoviesAndStuff.Api/Services/BaseMediaService.cs:174-179 | the genres a media record may reference are exactly the stored genres, under their names |
| GenreService.MediaTypesValidIff | MoviesAndStuff.Api/MoviesAndStuff.Api/Services/GenreService.cs:84-92 | the count check passes exactly when every requested media type id is stored and none repeats |
| GenreService.DuplicateRejected | MoviesAndStuff.Api/MoviesAndStuff.Api/Services/GenreService.cs:84-92 | a repeated id fails the check even when it is known |
| GenreService.NumberedLinks | MoviesAndStuff.Api/MoviesAndStuff.Api/Services/GenreService.cs:106-115 | one association per requested id, in request order, with order index + 1 |
| GenreService.NumberedLinksSorted | MoviesAndStuff.Api/MoviesAndStuff.Api/Services/GenreService.cs:70-78 | sorting the numbered associations by order leaves them in request order |
| GenreService.ApplyActiveFilter | MoviesAndStuff.Api/MoviesAndStuff.Api/Services/GenreService.cs:27-30 | with no flag every genre is kept; with a flag exactly the genres with that active value |
| GenreService.ApplyMediaTypeFilter | MoviesAndStuff.Api/MoviesAndStuff.Api/Services/GenreService.cs:32-35 | a blank media type id keeps every genre; otherwise exactly the genres associated with it |
| GenreService.GenreNarrowingKeepsOrder | MoviesAndStuff.Api/MoviesAndStuff.Api/Services/GenreService.cs:27-35 | the two narrowings keep the order of the model's ascending-id enumeration |
| GenreService.SelectedGenres | MoviesAndStuff.Api/MoviesAndStuff.Api/Services/GenreService.cs:22-35 | the narrowed rows are exactly the stored genres passing both narrowings, one per matching id, in the model's ascending-id enumeration |
| GenreService.SelectedGenresCount | MoviesAndStuff.Api/MoviesAndStuff.Api/Services/GenreService.cs:22-35 | rows holding exactly the matching genres once each number as many as the matching ids |
| GenreService.ListItem | MoviesAndStuff.Api/MoviesAndStuff.Api/Services/GenreService.cs:39-48 | a listed genre carries its own id, name, order and active flag, and at each position the name of the media type of the association at that position |
| GenreService.SortedGenres | MoviesAndStuff.Api/MoviesAndStuff.Api/Services/GenreService.cs:38 | the ordered selection holds exactly the matching genres, non-decreasing in order |
| GenreService.ListItems | MoviesAndStuff.Api/MoviesAndStuff.Api/Services/GenreService.cs:39-48 | one list item per row, in the same order |
| GenreService.ListItemsCover | MoviesAndStuff.Api/MoviesAndStuff.Api/Services/GenreService.cs:36-49 | rows holding one row per id of a set list exactly the items of those ids |
| GenreService.ListItemsOfSorted | MoviesAndStuff.Api/MoviesAndStuff.Api/Services/GenreService.cs:36-49 | the items of the ordered selection are exactly the items of the matching ids |
| GenreService.GetAll | MoviesAndStuff.Api/MoviesAndStuff.Api/Services/GenreService.cs:20-50 | one item per genre passing the active and media-type narrowings, each listed and nothing else, non-decreasing in order |
| GenreService.Detail | MoviesAndStuff.Api/MoviesAndStuff.Api/Services/GenreService.cs:60-78 | a genre's media types are a permutation of its associations, sorted by association order, each with its stored name |
| GenreService.GetById | MoviesAndStuff.Api/MoviesAndStuff.Api/Services/GenreService.cs:52-80 | null exactly for an absent id; otherwise the detail |
| GenreService.AddGenre | MoviesAndStuff.Api/MoviesAndStuff.Api/Services/GenreService.cs:94-103 | the first save stores the new genre under the next id, with no associations, and changes nothing else |
| GenreService.AttachLinks | MoviesAndStuff.Api/MoviesAndStuff.Api/Services/GenreService.cs:106-115 | the second save gives the new genre the numbered associations and changes nothing else |
| GenreService.Create | MoviesAndStuff.Api/MoviesAndStuff.Api/Services/GenreService.cs:82-118 | invalid media types throw before anything is stored; a failed first save stores nothing; a failed second save leaves the genre stored without associations; otherwise the genre is stored with numbered associations and its detail is returned |
| GenreService.Update | MoviesAndStuff.Api/MoviesAndStuff.Api/Services/GenreService.cs:120-161 | an absent id answers false before the media types are checked; invalid media types or a failed save throw with no change; otherwise answers true with the fields overwritten and the associations replaced |
| GenreService.Delete | MoviesAndStuff.Api/MoviesAndStuff.Api/Services/GenreService.cs:163-174 | false exactly for an absent id, and then nothing changes; otherwise that genre and its associations go, every other genre stays and the id counter is kept (what the deletion does to movies and games is MediaStore.GenreDeleted) |
| GenreService.Exists | MoviesAndStuff.Api/MoviesAndStuff.Api/Services/GenreService.cs:176-179 | true exactly when a genre with the id is stored |
| GenreService.CreateKeepsRequestOrder | MoviesAndStuff.Api/MoviesAndStuff.Api/Services/GenreService.cs:106-115 | after a committed create the detail lists the requested media types in request order, numbered 1 to n |
| GenreService.UpdateReplacesAssociations | MoviesAndStuff.Api/MoviesAndStuff.Api/Services/GenreService.cs:146-158 | after a committed update the detail lists exactly the requested media types in request order, numbered 1 to n; the prior associations are gone |
| BaseMediaController.NotFoundText | MoviesAndStuff.Api/MoviesAndStuff.Api/Controllers/BaseMediaController.cs:109-111 | the concurrency text is the media type name followed by " not found." |
| BaseMediaController.CreateAnswer | MoviesAndStuff.Api/MoviesAndStuff.Api/Controllers/BaseMediaController.cs:75-86 | success gives 201 at the created id; an argument error gives 400 with its message; any other failure gives 500 with the exception text |
| BaseMediaController.UpdateAnswer | MoviesAndStuff.Api/MoviesAndStuff.Api/Controllers/BaseMediaController.cs:102-116 | 204 exactly for true; 404 for false; 400 for an argument error; 404 with the not-found text for a concurrency failure; 500 with the fixed text otherwise |
| BaseMediaController.FlagAnswer | MoviesAndStuff.Api/MoviesAndStuff.Api/Controllers/BaseMediaController.cs:124-139 | 204 exactly on true and 404 exactly on false, with no body |
| BaseMediaController.GetAll | MoviesAndStuff.Api/MoviesAndStuff.Api/Controllers/BaseMediaController.cs:42-49 | always 200 with one item per matching record |
| BaseMediaController.GetById | MoviesAndStuff.Api/MoviesAndStuff.Api/Controllers/BaseMediaController.cs:57-61 | 404 exactly for an absent id; otherwise 200 with the detail |
| BaseMediaController.Create | MoviesAndStuff.Api/MoviesAndStuff.Api/Controllers/BaseMediaController.cs:68-87 | an invalid model gives 400 with its errors and the service is not called; otherwise the create answer of the service outcome |
| BaseMediaController.Update | MoviesAndStuff.Api/MoviesAndStuff.Api/Controllers/BaseMediaController.cs:95-117 | an invalid model gives 400 and the service is not called; otherwise the update answer of the service outcome |
| BaseMediaController.ToggleStatus | MoviesAndStuff.Api/MoviesAndStuff.Api/Controllers/BaseMediaController.cs:124-128 | 204 exactly for a stored id, 404 otherwise, with the service's toggle applied |
| BaseMediaController.Delete | MoviesAndStuff.Api/MoviesAndStuff.Api/Controllers/BaseMediaController.cs:135-139 | 204 exactly for a stored id, 404 otherwise, with the service's delete applied |
| BaseMediaController.CreateChangesStoreIffCreated | MoviesAndStuff.Api/MoviesAndStuff.Api/Controllers/BaseMediaController.cs:68-87 | the store changes exactly when the answer is 201, then by one record, and the answer's location serves the answer's body |
| BaseMediaController.UpdateChangesStoreOnlyOnNoContent | MoviesAndStuff.Api/MoviesAndStuff.Api/Controllers/BaseMediaController.cs:95-117 | the store changes only when the answer is 204, and then keeps its ids |
| BaseMediaController.UpdateFailuresAreErrors | MoviesAndStuff.Api/MoviesAndStuff.Api/Controllers/BaseMediaController.cs:102-116 | every exception an update throws gets 400, 404 or 500, never a success |
| PlainAnswers.NotFoundText | MoviesAndStuff.Api/MoviesAndStuff.Api/Controllers/MoviesController.cs:92-95 | the concurrency text is the kind followed by " not found" |
| PlainAnswers.CreateAnswer | MoviesAndStuff.Api/MoviesAndStuff.Api/Controllers/MoviesController.cs:57-69 | success gives 201 at the created id; an argument error gives 400 with its plain message; any other failure gives 500 with the exception text |
| PlainAnswers.UpdateAnswer | MoviesAndStuff.Api/MoviesAndStuff.Api/Controllers/MoviesController.cs:83-99 | 204 exactly for true; 404 for false; 400 with the message for an argument error; 404 with the kind's text for a concurrency failure; 500 "Internal server error" otherwise |
| PlainAnswers.FlagAnswer | MoviesAndStuff.Api/MoviesAndStuff.Api/Controllers/MoviesController.cs:106-119 | 204 exactly on true and 404 exactly on false, with no body |
| PlainAnswers.FindAnswer | MoviesAndStuff.Api/MoviesAndStuff.Api/Controllers/MoviesController.cs:40-44 | 404 exactly for null; otherwise 200 with the item |
| MoviesController.GetAll | MoviesAndStuff.Api/MoviesAndStuff.Api/Controllers/MoviesController.cs:27-34 | always 200 with one item per movie passing search and genre, each listed and nothing else |
| MoviesController.GetById | MoviesAndStuff.Api/MoviesAndStuff.Api/Controllers/MoviesController.cs:40-44 | 404 exactly for an absent id; otherwise 200 with the stored movie's detail |
| MoviesController.Create | MoviesAndStuff.Api/MoviesAndStuff.Api/Controllers/MoviesController.cs:50-70 | an invalid model gives 400 with the failing fields; an unknown genre gives 400 with the plain message; a failed commit gives 500; otherwise 201 with one movie added |
| MoviesController.Update | MoviesAndStuff.Api/MoviesAndStuff.Api/Controllers/MoviesController.cs:76-100 | an invalid model gives 400; an absent id 404; an unknown genre 400; a concurrency conflict 404 "Movie not found"; another database failure 500 "Internal server error"; otherwise 204 with the movie replaced |
| MoviesController.ToggleWatchStatus | MoviesAndStuff.Api/MoviesAndStuff.Api/Controllers/MoviesController.cs:106-110 | 404 with no change exactly for an absent id; otherwise 204 with only that movie toggled |
| MoviesController.Delete | MoviesAndStuff.Api/MoviesAndStuff.Api/Controllers/MoviesController.cs:116-120 | 404 with no change exactly for an absent id; otherwise 204 with only that movie removed |
| MoviesController.WatchFilterIgnored | MoviesAndStuff.Api/MoviesAndStuff.Api/Controllers/MoviesController.cs:27-34 | the watch filter in the query never changes the answer |
| MoviesController.CreatedMovieIsServed | MoviesAndStuff.Api/MoviesAndStuff.Api/Controllers/MoviesController.cs:50-70 | after a successful create, the 201 location serves the 201 body, and the unfiltered list grows by one |
| MoviesController.ToggleShowsWatchDate | MoviesAndStuff.Api/MoviesAndStuff.Api/Controllers/MoviesController.cs:106-110 | marking an unwatched movie watched answers 204, and the detail then shows it watched with its old date or now |
| GamesController.GetAll | MoviesAndStuff.Api/MoviesAndStuff.Api/Controllers/GamesController.cs:25-31 | always 200 with one item per game passing search and genre; no status filter is taken |
| GamesController.GetById | MoviesAndStuff.Api/MoviesAndStuff.Api/Controllers/GamesController.cs:37-40 | 404 exactly for an absent id; otherwise 200 with the stored game's detail |
| GamesController.Create | MoviesAndStuff.Api/MoviesAndStuff.Api/Controllers/GamesController.cs:47-66 | an invalid model or an unknown genre gives 400; a failed commit gives 500 with the exception text; otherwise 201 with one game added |
| GamesController.UpdateAnswering | MoviesAndStuff.Api/MoviesAndStuff.Api/Controllers/GamesController.cs:73-96 | the update action for a given concurrency text: 400, 404, 400, 404 with that text, 500, or 204 with the game replaced, by the same cases as for movies |
| GamesController.UpdateAsWritten | MoviesAndStuff.Api/MoviesAndStuff.Api/Controllers/GamesController.cs:73-96 | a concurrency conflict answers 404 "Movie not found"; every other case answers as the corrected update does |
| GamesController.Update | MoviesAndStuff.Api/MoviesAndStuff.Api/Controllers/GamesController.cs:73-96 | 400 with the field errors for an invalid model, 404 for an absent id, 400 "Invalid Genre ID" for an unknown genre, 404 "Game not found" on a concurrency conflict, 500 "Internal server error" on another failed commit, and 204 with that game overwritten on success; any answer other than 204 leaves the store unchanged |
| GamesController.TogglePlayStatus | MoviesAndStuff.Api/MoviesAndStuff.Api/Controllers/GamesController.cs:103-106 | 404 with no change exactly for an absent id; otherwise 204 with only that game toggled |
| GamesController.Delete | MoviesAndStuff.Api/MoviesAndStuff.Api/Controllers/GamesController.cs:113-116 | 404 with no change exactly for an absent id; otherwise 204 with only that game removed |
| GamesController.UpdateAsWrittenNamesMovie | MoviesAndStuff.Api/MoviesAndStuff.Api/Controllers/GamesController.cs:89-92 | for a stored game "Zelda" and a valid request, a concurrency conflict answers 404 with text starting "Movie", which differs from the corrected answer |
| GamesController.UpdateNamesGame | MoviesAndStuff.Api/MoviesAndStuff.Api/Controllers/GamesController.cs:73-96 | corrected, a concurrency conflict on a stored game answers 404 "Game not found" and changes nothing |
| GamesController.CreatedGameIsServed | MoviesAndStuff.Api/MoviesAndStuff.Api/Controllers/GamesController.cs:47-66 | after a successful create, the 201 location serves the 201 body, and the list grows by one |
| GenresController.GenreFormErrors | MoviesAndStuff.Api/MoviesAndStuff.Api/Data/Dtos/Genres/GenreFormDto.cs:7-9 | the name is reported exactly when it is blank or longer than 50 characters |
| GenresController.GetAll | MoviesAndStuff.Api/MoviesAndStuff.Api/Controllers/GenresController.cs:25-30 | always 200 with the service's list, both query narrowings passed through: one item per matching genre, ordered by order |
| GenresController.GetById | MoviesAndStuff.Api/MoviesAndStuff.Api/Controllers/GenresController.cs:37-40 | 404 exactly for an absent id; otherwise 200 with the detail |
| GenresController.Create | MoviesAndStuff.Api/MoviesAndStuff.Api/Controllers/GenresController.cs:47-66 | an invalid model or invalid media types give 400 with no change; a failed save gives 500 with the exception text; otherwise 201 with the stored genre |
| GenresController.UpdateAnswer | MoviesAndStuff.Api/MoviesAndStuff.Api/Controllers/GenresController.cs:80-91 | 204 exactly for true; 404 for false; 400 for an argument error; 500 with the exception's own text for every other failure |
| GenresController.Update | MoviesAndStuff.Api/MoviesAndStuff.Api/Controllers/GenresController.cs:73-92 | an invalid model gives 400; an absent id 404; invalid media types 400; a failed save 500 with no change; otherwise 204 with the associations replaced |
| GenresController.Delete | MoviesAndStuff.Api/MoviesAndStuff.Api/Controllers/GenresController.cs:99-102 | 404 with no change exactly for an absent id; otherwise 204 with that genre removed |
| GenresController.ConcurrencyIsServerError | MoviesAndStuff.Api/MoviesAndStuff.Api/Controllers/GenresController.cs:89-91 | a genre update's concurrency failure is a 500 carrying its message, where a movie update's is a 404 |
| GenresController.DuplicateMediaTypeRefused | MoviesAndStuff.Api/MoviesAndStuff.Api/Services/GenreService.cs:84-92 | a request naming one media type twice is refused with 400 and the store is unchanged |
| GenresController.CreatedGenreIsServed | MoviesAndStuff.Api/MoviesAndStuff.Api/Controllers/GenresController.cs:47-66 | after a committed create, the 201 location serves the 201 body, which lists the requested media types in order, numbered from 1 |
| DtoValidation.MovieFormErrors | MoviesAndStuff.Api/MoviesAndStuff.Api/Data/Dtos/Movies/CreateMovieDto.cs:8-24 | each field is reported exactly when it breaks its rule: title required and at most 100; review at most 500; director at most 50; duration in 1..59999; rating rounding half to even into 0..10 |
| DtoValidation.GameFormErrors | MoviesAndStuff.Api/MoviesAndStuff.Api/Data/Dtos/Games/UpdateGameDto.cs:8-21 | each field is reported exactly when it breaks its rule: title required and at most 100; review at most 500; developer at most 50; rating rounding half to even into 0..10 |
| DtoValidation.MovieFormValidIff | MoviesAndStuff.Api/MoviesAndStuff.Api/Data/Dtos/Movies/CreateMovieDto.cs:8-28 | a movie request is valid exactly when every annotated field passes, the rating being accepted from -0.5 to 10.5; the genre id and dates are unconstrained |
| DtoValidation.GameFormValidIff | MoviesAndStuff.Api/MoviesAndStuff.Api/Data/Dtos/Games/UpdateGameDto.cs:8-25 | a game request is valid exactly when every annotated field passes, the rating being accepted from -0.5 to 10.5 |
| DtoValidation.ValidMovieFormFitsSchema | MoviesAndStuff.Api/MoviesAndStuff.Api/Data/Dtos/Movies/CreateMovieDto.cs:8-24 | a movie created or updated from a valid request fits the column limits of the movie table |
| DtoValidation.ValidGameFormFitsSchema | MoviesAndStuff.Api/MoviesAndStuff.Api/Data/Dtos/Games/UpdateGameDto.cs:8-21 | a game created or updated from a valid request fits the column limits of the game table |
| DtoValidation.ToggleKeepsSchema | MoviesAndStuff.Api/MoviesAndStuff.Api/Services/MovieService.cs:84-92 | toggling a status never moves a record out of its column limits |
| DtoValidation.MovieFormBoundaries | MoviesAndStuff.Api/MoviesAndStuff.Api/Data/Dtos/Movies/CreateMovieDto.cs:8-21 | titles of 100 and 101 characters pass and fail; a blank title fails; durations 0 and 60000 fail and 59999 passes |
| DtoValidation.RoundHalfEven | MoviesAndStuff.Api/MoviesAndStuff.Api/Data/Dtos/Movies/CreateMovieDto.cs:23-24 | the integer `[Range]` compares the rating rounded to the nearest integer, a tie going to the even one |
| DtoValidation.RatingAcceptedTenths | MoviesAndStuff.Api/MoviesAndStuff.Api/Data/Dtos/Movies/CreateMovieDto.cs:23-24 | a rating passes `[Range(0, 10)]` exactly when it lies in -0.5..10.5 |
| DtoValidation.MovieRatingBoundaries | MoviesAndStuff.Api/MoviesAndStuff.Api/Data/Dtos/Movies/CreateMovieDto.cs:23-24 | ratings of -0.5 and 10.5 pass; -0.6 and 10.6 fail |
| DurationInput.HhmmToMinutes | MoviesAndStuff.Front/src/app/components/duration-input/duration-input.component.ts:78-87 | text without a colon is read entirely as hours |
| DurationInput.ReadColonForm | MoviesAndStuff.Front/src/app/components/duration-input/duration-input.component.ts:81-86 | "a:b" reads as a hours plus b minutes clamped to 59 |
| DurationInput.MinutesToHHMM | MoviesAndStuff.Front/src/app/components/duration-input/duration-input.component.ts:89-96 | '' exactly for zero; any positive value gives display text that reads back as the same minutes |
| DurationInput.KeptDigits | MoviesAndStuff.Front/src/app/components/duration-input/duration-input.component.ts:29-37 | the typed digits in order, at most the first four |
| DurationInput.Formatted | MoviesAndStuff.Front/src/app/components/duration-input/duration-input.component.ts:39-42 | at most 5 characters, with a colon exactly when at least three digits are kept |
| DurationInput.FormattedKeepsDigits | MoviesAndStuff.Front/src/app/components/duration-input/duration-input.component.ts:39-42 | the formatted text shows exactly the kept digits, in order |
| DurationInput.OnInputChange | MoviesAndStuff.Front/src/app/components/duration-input/duration-input.component.ts:27-49 | no digits shows '' and emits null; otherwise at most 5 characters, a colon exactly for 3 or 4 digits, and the emitted value is the minutes read, or null when those are 0 |
| DurationInput.OnInputChangeShowsDigits | MoviesAndStuff.Front/src/app/components/duration-input/duration-input.component.ts:29-45 | the text shown after typing holds exactly the first four digits typed |
| DurationInput.OnInputChangeReading | MoviesAndStuff.Front/src/app/components/duration-input/duration-input.component.ts:39-48 | one or two digits read as hours; three or four as hours and clamped minutes |
| DurationInput.OnBlur | MoviesAndStuff.Front/src/app/components/duration-input/duration-input.component.ts:51-59 | an empty text stays empty; any other is replaced by the padded form of the minutes it reads as |
| DurationInput.WriteValue | MoviesAndStuff.Front/src/app/components/duration-input/duration-input.component.ts:61-64 | '' exactly for null or zero; otherwise text that reads back as the value |
| DurationInput.OnBlurIdempotent | MoviesAndStuff.Front/src/app/components/duration-input/duration-input.component.ts:51-59 | leaving the field twice is leaving it once, and leaving it keeps the minutes read |
| DurationInput.TypedThenBlurredAgrees | MoviesAndStuff.Front/src/app/components/duration-input/duration-input.component.ts:27-59 | the text after typing and leaving reads as the value emitted while typing |
| DurationInput.WrittenValueIsNormal | MoviesAndStuff.Front/src/app/components/duration-input/duration-input.component.ts:61-96 | a written value is already in normal form: leaving the field does not change it |
| DurationInput.HoursOnlyExample | MoviesAndStuff.Front/src/app/components/duration-input/duration-input.component.ts:81-87 | typing "45" shows "45" and emits 2700 |
| DurationInput.ClampExample | MoviesAndStuff.Front/src/app/components/duration-input/duration-input.component.ts:85-86 | typing "9999" shows "99:99" and emits 5999 |
| DurationInput.DigitsOfStripExample | MoviesAndStuff.Front/src/app/components/duration-input/duration-input.component.ts:29 | the digits of "1h30" are "130" |
| DurationInput.StripExample | MoviesAndStuff.Front/src/app/components/duration-input/duration-input.component.ts:29-48 | typing "1h30" shows "1:30" and emits 90 |
| DurationInput.WriteExample | MoviesAndStuff.Front/src/app/components/duration-input/duration-input.component.ts:89-96 | 90 minutes is written "01:30" |
| DurationPipe.Counted | MoviesAndStuff.Front/src/app/pipes/duration.pipe.ts:31-39 | a count splits into the number and its unit, the unit singular exactly for one |
| DurationPipe.Transform | MoviesAndStuff.Front/src/app/pipes/duration.pipe.ts:16-52 | null or zero gives '0 minutes' in the long format and '0m' otherwise |
| DurationPipe.ReadCounted | MoviesAndStuff.Front/src/app/pipes/duration.pipe.ts:31-39 | a rendered count reads back as the count times its unit's weight |
| DurationPipe.ReadPieceOf | MoviesAndStuff.Front/src/app/pipes/duration.pipe.ts:44-50 | one default-format piece holds no space and reads back as its minutes |
| DurationPipe.DefaultTextReadsBack | MoviesAndStuff.Front/src/app/pipes/duration.pipe.ts:42-50 | a positive duration's default text reads back as its hours and minutes |
| DurationPipe.DefaultReadsBack | MoviesAndStuff.Front/src/app/pipes/duration.pipe.ts:16-50 | the default format reads back as the minutes it was given |
| DurationPipe.ReadTwoCounted | MoviesAndStuff.Front/src/app/pipes/duration.pipe.ts:34-35 | hours and minutes joined by a space read back as their total |
| DurationPipe.LongReadsBack | MoviesAndStuff.Front/src/app/pipes/duration.pipe.ts:16-40 | the long format reads back as the minutes it was given |
| DurationPipe.ShortReadsBack | MoviesAndStuff.Front/src/app/pipes/duration.pipe.ts:25-27 | the short format of a positive duration is text the duration input reads as the same minutes |
| DurationPipe.LongSingularIffOne | MoviesAndStuff.Front/src/app/pipes/duration.pipe.ts:31-32 | a unit word is singular exactly when its count is one |
| DurationPipe.ZeroComponentOmitted | MoviesAndStuff.Front/src/app/pipes/duration.pipe.ts:42-50 | the default text shows hours exactly when there are whole hours and minutes exactly when there is a remainder |
| DurationPipe.Examples | MoviesAndStuff.Front/src/app/pipes/duration.pipe.ts:7-9 | 150 minutes gives "2h 30m", "2:30" and "2 hours 30 minutes" |
| StarRating.Stars | MoviesAndStuff.Front/src/app/shared/components/ui/star-rating/star-rating.component.ts:20-21 | the stars are exactly 1 to 10 |
| StarRating.Proposed | MoviesAndStuff.Front/src/app/shared/components/ui/star-rating/star-rating.component.ts:35-37 | a positive rating on the half-star grid, a half exactly on the left half |
| StarRating.OnStarClick | MoviesAndStuff.Front/src/app/shared/components/ui/star-rating/star-rating.component.ts:29-44 | ignored when disabled; otherwise the new rating is emitted, stays on the grid, is 0 exactly when it equals the proposed value, and otherwise is the proposed value; nothing else changes |
| StarRating.OnStarHover | MoviesAndStuff.Front/src/app/shared/components/ui/star-rating/star-rating.component.ts:46-55 | ignored when disabled; otherwise only the hover changes, to the proposed value |
| StarRating.OnMouseLeave | MoviesAndStuff.Front/src/app/shared/components/ui/star-rating/star-rating.component.ts:57-59 | only the hover changes, to 0 |
| StarRating.WriteValue | MoviesAndStuff.Front/src/app/shared/components/ui/star-rating/star-rating.component.ts:72-74 | only the rating changes, to the value or 0 for null |
| StarRating.SetDisabledState | MoviesAndStuff.Front/src/app/shared/components/ui/star-rating/star-rating.component.ts:84-86 | only the disabled flag changes |
| StarRating.Displayed | MoviesAndStuff.Front/src/app/shared/components/ui/star-rating/star-rating.component.ts:62 | the hover when it is non-zero, else the rating |
| StarRating.FillOf | MoviesAndStuff.Front/src/app/shared/components/ui/star-rating/star-rating.component.ts:61-70 | full exactly when the star is at most the shown value; half exactly when the star minus a half equals it |
| StarRating.StarsValueClipped | MoviesAndStuff.Front/src/app/shared/components/ui/star-rating/star-rating.component.ts:61-70 | the first k stars show the shown value clipped to k |
| StarRating.StarsShowDisplayed | MoviesAndStuff.Front/src/app/shared/components/ui/star-rating/star-rating.component.ts:61-70 | the ten stars together show exactly the shown value |
| StarRating.ClickTwiceClears | MoviesAndStuff.Front/src/app/shared/components/ui/star-rating/star-rating.component.ts:37-41 | clicking one point twice sets and then clears the rating |
| StarRating.EventsKeepGrid | MoviesAndStuff.Front/src/app/shared/components/ui/star-rating/star-rating.component.ts:29-59 | click, hover and leave each keep the rating on the half-star grid |
| StarRating.HoverThenLeave | MoviesAndStuff.Front/src/app/shared/components/ui/star-rating/star-rating.component.ts:46-62 | hovering and leaving shows the rating again, unchanged |
| StarRating.SevenAndAHalf | MoviesAndStuff.Front/src/app/shared/components/ui/star-rating/star-rating.component.ts:61-74 | a 7.5 rating shows seven full stars, one half and two empty |
| DropdownCore.FilterOptions | MoviesAndStuff.Front/src/app/components/dropdown/dropdown.component.ts:206-215 | a blank term keeps every option; otherwise exactly, and in order, the options whose lower-cased label contains the lower-cased untrimmed term |
| DropdownCore.FilterKeepsOrder | MoviesAndStuff.Front/src/app/components/dropdown/dropdown.component.ts:210-214 | filtering distributes over concatenation, so it keeps relative order |
| DropdownCore.FirstWithValue | MoviesAndStuff.Front/src/app/components/dropdown/dropdown.component.ts:220 | the position of the first option carrying the value, or none exactly when no option carries it |
| DropdownCore.DisplayLabel | MoviesAndStuff.Front/src/app/components/dropdown/dropdown.component.ts:219-222 | the label of the first option carrying the selected value, else '' |
| DropdownCore.DisplayLabelOfMember | MoviesAndStuff.Front/src/app/components/dropdown/dropdown.component.ts:219-222 | with distinct values, an option's value shows that option's label |
| DropdownCore.NextHighlight | MoviesAndStuff.Front/src/app/components/dropdown/dropdown.component.ts:176-186 | down moves one on and wraps from the last to 0; up moves one back and wraps from 0 or -1 to the last |
| DropdownCore.NextHighlightInRange | MoviesAndStuff.Front/src/app/components/dropdown/dropdown.component.ts:176-186 | navigation keeps the highlight admissible, and with at least one option it lands on one |
| DropdownCore.DownThenUp | MoviesAndStuff.Front/src/app/components/dropdown/dropdown.component.ts:176-186 | down then up returns to a highlight that is not the last |
| DropdownCore.DownCycles | MoviesAndStuff.Front/src/app/components/dropdown/dropdown.component.ts:178-181 | k presses of down from the first option land on option k, and n presses come back to the first |
| Dropdown.Init | MoviesAndStuff.Front/src/app/components/dropdown/dropdown.component.ts:43-52 | closed, no highlight, every option listed, no search text, and the selected value's label shown |
| Dropdown.OptionsChanged | MoviesAndStuff.Front/src/app/components/dropdown/dropdown.component.ts:44-51 | new options are all listed and the label is recomputed; nothing else changes |
| Dropdown.SelectedValueChanged | MoviesAndStuff.Front/src/app/components/dropdown/dropdown.component.ts:44-51 | a new selected value shows its label and relists every option; nothing else changes |
| Dropdown.Open | MoviesAndStuff.Front/src/app/components/dropdown/dropdown.component.ts:90-95 | nothing when disabled; otherwise open, no highlight, every option listed |
| Dropdown.Close | MoviesAndStuff.Front/src/app/components/dropdown/dropdown.component.ts:104-108 | closed, search text cleared, no highlight; nothing else changes |
| Dropdown.Toggle | MoviesAndStuff.Front/src/app/components/dropdown/dropdown.component.ts:71-82 | nothing when disabled; otherwise the open flag flips |
| Dropdown.Navigate | MoviesAndStuff.Front/src/app/components/dropdown/dropdown.component.ts:170-187 | a closed dropdown opens instead; an open one moves the highlight with wrap-around |
| Dropdown.KeyDown | MoviesAndStuff.Front/src/app/components/dropdown/dropdown.component.ts:151-168 | the arrows navigate, Escape closes, other keys change nothing |
| Dropdown.SearchInput | MoviesAndStuff.Front/src/app/components/dropdown/dropdown.component.ts:144-149 | only the search text changes |
| Dropdown.SearchSettled | MoviesAndStuff.Front/src/app/components/dropdown/dropdown.component.ts:55-62 | a settled text equal to the previous one is dropped; any other filters the list, clears the highlight and is emitted |
| Dropdown.SelectOption | MoviesAndStuff.Front/src/app/components/dropdown/dropdown.component.ts:189-200 | a disabled option does nothing; otherwise its value is emitted and the dropdown closes |
| Dropdown.OutsideClick | MoviesAndStuff.Front/src/app/components/dropdown/dropdown.component.ts:224-230 | a document click closes an open dropdown and leaves a closed one alone |
| Dropdown.EventsKeepHighlightValid | MoviesAndStuff.Front/src/app/components/dropdown/dropdown.component.ts:90-217 | every event except an options change keeps the highlight none or a listed position |
| Dropdown.ArrowOnOpenHighlightsAnOption | MoviesAndStuff.Front/src/app/components/dropdown/dropdown.component.ts:170-187 | with n > 0 listed options, an arrow on an open dropdown highlights a position in 0..n-1 |
| Dropdown.OptionsChangeMayStrandHighlight | MoviesAndStuff.Front/src/app/components/dropdown/dropdown.component.ts:44-47 | shrinking the options while the third of three is highlighted leaves a highlight past the list |
| Dropdown.DisabledNeverOpens | MoviesAndStuff.Front/src/app/components/dropdown/dropdown.component.ts:71-95 | while disabled no click or key opens the dropdown |
| Dropdown.SearchThenSelect | MoviesAndStuff.Front/src/app/components/dropdown/dropdown.component.ts:144-217 | choosing an enabled option after a search leaves it closed with the search text cleared |
| Dropdown.RepeatedSearchDropped | MoviesAndStuff.Front/src/app/components/dropdown/dropdown.component.ts:55-62 | the same settled text fired twice in a row is emitted only once |
| Dropdown.SelectionRoundTrip | MoviesAndStuff.Front/src/app/components/dropdown/dropdown.component.ts:189-222 | a parent feeding the emitted value back sees the chosen option's label and it counts as selected |
| DropdownLegacy.OnInit | MoviesAndStuff.Front/src/app/components/dropdown.component.ts:41-49 | every option listed and the selected value's label shown; nothing else changes |
| DropdownLegacy.OnOptionsChange | MoviesAndStuff.Front/src/app/components/dropdown.component.ts:56-61 | a null new value is ignored; otherwise the new options are listed and the label recomputed |
| DropdownLegacy.OnSelectedValueInput | MoviesAndStuff.Front/src/app/components/dropdown.component.ts:56-61 | a new selected value from the parent changes only that input |
| DropdownLegacy.SelectOption | MoviesAndStuff.Front/src/app/components/dropdown.component.ts:183-196 | a disabled option does nothing; otherwise its value and label are stored and emitted and the dropdown closes |
| DropdownLegacy.SelectShowsLabel | MoviesAndStuff.Front/src/app/components/dropdown.component.ts:183-196 | with distinct values, selecting an option shows its label and makes it the selected value |
| DropdownLegacy.SelectAgreesWithSignalVersion | MoviesAndStuff.Front/src/app/components/dropdown.component.ts:183-196 | the two selections emit the same value and leave the same state apart from the stored value and label |
| DropdownLegacy.SelectedValueInputLeavesLabelStale | MoviesAndStuff.Front/src/app/components/dropdown.component.ts:211-214 | a parent switching the selected value from Action to Drama still shows "Action" |
| BaseMediaList.Initial | MoviesAndStuff.Front/src/app/shared/components/base-media-list/base-media-list.component.ts:28-33 | loading, no items, no genres, nothing selected, nothing to delete, no settled search |
| BaseMediaList.SettledSearch | MoviesAndStuff.Front/src/app/shared/components/base-media-list/base-media-list.component.ts:37-43 | the delivered search is empty exactly for blank text, and otherwise has no white space at either end |
| BaseMediaList.CurrentSearch | MoviesAndStuff.Front/src/app/shared/components/base-media-list/base-media-list.component.ts:48 | the settled search, or '' before the first delivery |
| BaseMediaList.ReloadRequest | MoviesAndStuff.Front/src/app/shared/components/base-media-list/base-media-list.component.ts:58-67 | a load fires exactly when a filter is selected, with the current search, genre and filter |
| BaseMediaList.OnInit | MoviesAndStuff.Front/src/app/shared/components/base-media-list/base-media-list.component.ts:69-71 | the default filter is selected and nothing else changes |
| BaseMediaList.SearchDelivered | MoviesAndStuff.Front/src/app/shared/components/base-media-list/base-media-list.component.ts:37-48 | the current search becomes the trimmed text; nothing else changes |
| BaseMediaList.OnGenreSelected | MoviesAndStuff.Front/src/app/shared/components/base-media-list/base-media-list.component.ts:93-95 | only the selected genre changes |
| BaseMediaList.SetFilter | MoviesAndStuff.Front/src/app/shared/components/base-media-list/base-media-list.component.ts:97-99 | only the selected filter changes |
| BaseMediaList.GenreOptions | MoviesAndStuff.Front/src/app/shared/components/base-media-list/base-media-list.component.ts:83-87 | "All genres" with a null value first, then one option per genre in order: n + 1 options |
| BaseMediaList.GenresLoaded | MoviesAndStuff.Front/src/app/shared/components/base-media-list/base-media-list.component.ts:78-91 | only the genre options change, to those of the loaded genres |
| BaseMediaList.OpenDeleteModal | MoviesAndStuff.Front/src/app/shared/components/base-media-list/base-media-list.component.ts:101-107 | only the item to delete changes, to the id |
| BaseMediaList.ConfirmDelete | MoviesAndStuff.Front/src/app/shared/components/base-media-list/base-media-list.component.ts:109-115 | deletes the remembered id, if any, and forgets it |
| BaseMediaList.GetItemDate | MoviesAndStuff.Front/src/app/shared/components/base-media-list/base-media-list.component.ts:129-131 | null when no date property is configured; otherwise the item's value under it |
| BaseMediaList.GetItemStatus | MoviesAndStuff.Front/src/app/shared/components/base-media-list/base-media-list.component.ts:125-127 | the item's value under the status property, or undefined |
| BaseMediaList.InitStartsLoading | MoviesAndStuff.Front/src/app/shared/components/base-media-list/base-media-list.component.ts:58-71 | nothing loads before init; after it, a load with no search, no genre and the default filter |
| BaseMediaList.ReloadFollowsInputs | MoviesAndStuff.Front/src/app/shared/components/base-media-list/base-media-list.component.ts:58-67 | once a filter is selected, each change of search, genre or filter reloads with the new value and the others kept |
| BaseMediaList.DeleteOnceConfirmed | MoviesAndStuff.Front/src/app/shared/components/base-media-list/base-media-list.component.ts:101-115 | the chosen id is deleted once; a second confirmation deletes nothing |
| BaseMediaList.EmptyBannersExclusive | MoviesAndStuff.Front/src/app/shared/components/base-media-list/base-media-list.component.ts:47-54 | the two empty banners are never both shown, neither shows while loading or with results, and one shows otherwise |
| BaseMediaList.GenreChoiceRoundTrip | MoviesAndStuff.Front/src/app/shared/components/base-media-list/base-media-list.component.ts:83-87 | the null value shows "All genres" and, with distinct ids, a genre's id shows its name |
| GamesQuery.BuildQuery | MoviesAndStuff.Front/src/app/games/services/games.service.ts:26-40 | no argument object gives no parameters; at most three, with known and distinct keys |
| GamesQuery.Lookup | MoviesAndStuff.Front/src/app/games/services/games.service.ts:31-39 | none exactly when no parameter has the key; otherwise a value stored under it |
| GamesQuery.QueryReadsBack | MoviesAndStuff.Front/src/app/games/services/games.service.ts:33-39 | search and genre id are sent exactly when non-empty, the filter exactly when defined and not All, each with its value |
| GamesQuery.LookupConcat | MoviesAndStuff.Front/src/app/games/services/games.service.ts:31-39 | a lookup in a concatenation looks in the first part, then the second |
| GamesQuery.EmptyParamsEmptyQuery | MoviesAndStuff.Front/src/app/games/services/games.service.ts:31-39 | with no truthy field, or no argument object, no parameter is sent |
| GamesList.LoadParamsAsWritten | MoviesAndStuff.Front/src/app/games/games-list/games-list.component.ts:24-28 | search and genre are passed; the play filter is not, as it goes under a key the service does not read |
| GamesList.LoadParams | MoviesAndStuff.Front/src/app/games/games-list/games-list.component.ts:24-28 | search, genre and the selected filter under the key the service reads |
| GamesList.LoadItemsAsWritten | MoviesAndStuff.Front/src/app/games/games-list/games-list.component.ts:21-30 | loading starts and the query of the as-written argument object is sent |
| GamesList.LoadItems | MoviesAndStuff.Front/src/app/games/games-list/games-list.component.ts:21-30 | loading starts and the query of the corrected argument object is sent |
| GamesList.LoadSucceeded | MoviesAndStuff.Front/src/app/games/games-list/games-list.component.ts:31-34 | the items become the answer and loading ends; nothing else changes |
| GamesList.LoadFailed | MoviesAndStuff.Front/src/app/games/games-list/games-list.component.ts:35-39 | the items become empty and loading ends; nothing else changes |
| GamesList.Toggled | MoviesAndStuff.Front/src/app/games/games-list/games-list.component.ts:43-51 | length and order kept; the played flag flips exactly on the items with the id |
| GamesList.Deleted | MoviesAndStuff.Front/src/app/games/games-list/games-list.component.ts:53-57 | exactly the items with the id go |
| GamesList.ToggleAnswered | MoviesAndStuff.Front/src/app/games/games-list/games-list.component.ts:43-51 | a successful toggle flips the item locally; a failed one changes nothing |
| GamesList.DeleteAnswered | MoviesAndStuff.Front/src/app/games/games-list/games-list.component.ts:53-57 | a successful delete removes the item locally; a failed one changes nothing |
| GamesList.FilterNeverSentAsWritten | MoviesAndStuff.Front/src/app/games/games-list/games-list.component.ts:24-28 | as written, no list request carries a filter, whatever is selected |
| GamesList.PlayedFilterDroppedAsWritten | MoviesAndStuff.Front/src/app/games/games-list/games-list.component.ts:24-28 | choosing "Played" sends no parameters as written, and the filter "Played" when corrected |
| GamesList.LoadSendsSelection | MoviesAndStuff.Front/src/app/games/games-list/games-list.component.ts:21-30 | corrected, the request carries the selected filter exactly when it is not All |
| GamesList.LoadCycle | MoviesAndStuff.Front/src/app/games/games-list/games-list.component.ts:21-39 | loading is on while the request is out and off after either answer; a failure shows an empty banner |
| GamesList.ToggleTwiceRestores | MoviesAndStuff.Front/src/app/games/games-list/games-list.component.ts:46-48 | two successful toggles of one id restore the list |
| GamesList.DeleteThenToggle | MoviesAndStuff.Front/src/app/games/games-list/games-list.component.ts:43-57 | after a delete no item has the id, so a later toggle of it changes nothing |
| GamesList.DeleteKeepsOrder | MoviesAndStuff.Front/src/app/games/games-list/games-list.component.ts:55 | deleting distributes over concatenation, so the survivors keep their order |
| BaseMediaForm.ReadInteger | MoviesAndStuff.Front/src/app/shared/components/base-media-form/base-media-form.component.ts:73 | empty text is 0; a digit string is its decimal value; a sign followed by digits is that value, negated for '-'; text starting with anything but a digit or a sign is not a number |
| BaseMediaForm.NumberOf | MoviesAndStuff.Front/src/app/shared/components/base-media-form/base-media-form.component.ts:73 | blank text is 0; otherwise the trimmed text read as an integer |
| BaseMediaForm.ItemIdFromRoute | MoviesAndStuff.Front/src/app/shared/components/base-media-form/base-media-form.component.ts:72-74 | the numeric route id, or 0 when it is missing or not a number |
| BaseMediaForm.Initial | MoviesAndStuff.Front/src/app/shared/components/base-media-form/base-media-form.component.ts:44-47 | no id, no genre selected, no genres, no item |
| BaseMediaForm.OnInit | MoviesAndStuff.Front/src/app/shared/components/base-media-form/base-media-form.component.ts:66-93 | the id comes from the route, and the item is fetched, by that id, exactly in editing mode |
| BaseMediaForm.GenresLoaded | MoviesAndStuff.Front/src/app/shared/components/base-media-form/base-media-form.component.ts:76-84 | only the genres change |
| BaseMediaForm.ItemLoaded | MoviesAndStuff.Front/src/app/shared/components/base-media-form/base-media-form.component.ts:86-93 | only the item changes |
| BaseMediaForm.GenreDropdown | MoviesAndStuff.Front/src/app/shared/components/base-media-form/base-media-form.component.ts:51-53 | one enabled choice per genre, in order, labelled by name with the id as value |
| BaseMediaForm.OnGenreChange | MoviesAndStuff.Front/src/app/shared/components/base-media-form/base-media-form.component.ts:95-98 | the selected genre and the form's genre both become the value; nothing else changes |
| BaseMediaForm.SaveItem | MoviesAndStuff.Front/src/app/shared/components/base-media-form/base-media-form.component.ts:100-109 | an invalid form is refused; a valid one sends update(itemId, body) in editing mode and create(body) otherwise |
| BaseMediaForm.SavedText | MoviesAndStuff.Front/src/app/shared/components/base-media-form/base-media-form.component.ts:113-120 | the mode's emoji, the singular name, then "updated" or "added" and " successfully!" |
| BaseMediaForm.FailedText | MoviesAndStuff.Front/src/app/shared/components/base-media-form/base-media-form.component.ts:125-127 | "Failed to update " or "Failed to add ", the lower-cased name, then "." |
| BaseMediaForm.MarkTouched | MoviesAndStuff.Front/src/app/shared/components/base-media-form/base-media-form.component.ts:103 | the control becomes touched; nothing else changes |
| BaseMediaForm.EditRouteRoundTrip | MoviesAndStuff.Front/src/app/shared/components/base-media-form/base-media-form.component.ts:72-93 | an item's edit route reads back as its id and fetches it; no route id fetches nothing |
| BaseMediaForm.NonNumericRouteCreates | MoviesAndStuff.Front/src/app/shared/components/base-media-form/base-media-form.component.ts:72-74 | a non-numeric id gives 0 and fetches nothing |
| BaseMediaForm.ZeroRouteCreates | MoviesAndStuff.Front/src/app/shared/components/base-media-form/base-media-form.component.ts:72-74 | an id of "0" gives 0 and fetches nothing |
| BaseMediaForm.NegativeRouteCreates | MoviesAndStuff.Front/src/app/shared/components/base-media-form/base-media-form.component.ts:72-92 | an id of "-3" is kept as -3, yet the page is not in editing mode and fetches nothing |
| BaseMediaForm.PatchWaitsForBoth | MoviesAndStuff.Front/src/app/shared/components/base-media-form/base-media-form.component.ts:55-64 | the form is filled only once both the item and a non-empty genre list have arrived, in either order |
| BaseMediaForm.RefusedSaveShowsErrors | MoviesAndStuff.Front/src/app/shared/components/base-media-form/base-media-form.component.ts:100-105 | after a refused save every invalid control shows its error |
| BaseMediaForm.SaveTargetsRoute | MoviesAndStuff.Front/src/app/shared/components/base-media-form/base-media-form.component.ts:66-109 | a page opened for an item updates that item; one opened without an id creates |
| BaseMediaForm.GenreDropdownShowsChoice | MoviesAndStuff.Front/src/app/shared/components/base-media-form/base-media-form.component.ts:51-98 | with distinct ids, choosing a genre shows its name |
| GamesForm.TextOrAbsent | MoviesAndStuff.Front/src/app/games/games-form/games-form.component.ts:79-80 | a text is sent exactly when it is present and non-empty |
| GamesForm.NumberOrAbsent | MoviesAndStuff.Front/src/app/games/games-form/games-form.component.ts:81-82 | a number is sent exactly when it is present and not 0 |
| GamesForm.InitialForm | MoviesAndStuff.Front/src/app/games/games-form/games-form.component.ts:42-51 | empty title, genre 0, rating 0 and not played |
| GamesForm.MapFormToCreateDto | MoviesAndStuff.Front/src/app/games/games-form/games-form.component.ts:75-87 | title verbatim; empty review and developer dropped; genre from the selected genre, dropped when 0 or null; rating 0 dropped; a null played flag is false |
| GamesForm.MapFormToUpdateDto | MoviesAndStuff.Front/src/app/games/games-form/games-form.component.ts:89-101 | the same field rules as the create body |
| GamesForm.PatchFormWithItem | MoviesAndStuff.Front/src/app/games/games-form/games-form.component.ts:61-73 | the game's fields fill the form, a missing date becomes now, and the selected genre is the game's genre or null |
| GamesForm.SaveGame | MoviesAndStuff.Front/src/app/games/games-form/games-form.component.ts:115-117 | an invalid form is refused; a valid one sends the update body in editing mode and the create body otherwise |
| GamesForm.CreateAndUpdateAgree | MoviesAndStuff.Front/src/app/games/games-form/games-form.component.ts:75-101 | the create and update bodies are equal for every form state |
| GamesForm.PatchThenSaveRoundTrip | MoviesAndStuff.Front/src/app/games/games-form/games-form.component.ts:61-101 | loading a game and saving it untouched sends back its fields, apart from the emptiness and zero rules |
| GamesForm.FreshFormBody | MoviesAndStuff.Front/src/app/games/games-form/games-form.component.ts:42-87 | a fresh form saved as it is sends an empty title, no genre, no rating and not played |
| ErrorHandler.EntityName | MoviesAndStuff.Front/src/app/shared/error-handler.service.ts:40 | the lower-cased context, or "resource" when it is missing or empty; never empty |
| ErrorHandler.UserMessage | MoviesAndStuff.Front/src/app/shared/error-handler.service.ts:39-62 | 400, 401, 403, 422, 500 and 503 get their fixed messages; 404 and 409 name the entity; any other status gets the default message |
| ErrorHandler.BuildErrorDetails | MoviesAndStuff.Front/src/app/shared/error-handler.service.ts:22-37 | a connection failure gives its message, no status and the connection text; a server error gives its message, its status and the status's user message |
| ErrorHandler.DetailsDetermineMessage | MoviesAndStuff.Front/src/app/shared/error-handler.service.ts:30-36 | two server errors with the same status get the same user message |
| ErrorHandler.ConnectionMessageDistinct | MoviesAndStuff.Front/src/app/shared/error-handler.service.ts:22-61 | the connection message differs from the user message of every server answer, whatever its status and context |
| ErrorHandler.KnownStatusesDistinct | MoviesAndStuff.Front/src/app/shared/error-handler.service.ts:43-58 | statuses with fixed messages get different ones, none of them the default |
| ErrorHandler.EntityMessagesName | MoviesAndStuff.Front/src/app/shared/error-handler.service.ts:49-52 | the not-found and conflict messages hold the entity name right after their opening word |
| ErrorHandler.GameNotFoundExample | MoviesAndStuff.Front/src/app/shared/error-handler.service.ts:40-60 | a 404 for "Game" reads "The game was not found."; a 418 gets the default message |
| Toast.Initial | MoviesAndStuff.Front/src/app/components/toast/toast.component.ts:25-26 | no toasts and the first id is 1 |
| Toast.Show | MoviesAndStuff.Front/src/app/components/toast/toast.component.ts:28-33 | one toast appended at the end with the next id; the counter advances; the ids stay unique and increasing |
| Toast.Remove | MoviesAndStuff.Front/src/app/components/toast/toast.component.ts:35-37 | exactly the toasts with the id go; the counter is unchanged |
| Toast.RemoveKeepsOrder | MoviesAndStuff.Front/src/app/components/toast/toast.component.ts:35-37 | the toasts that stay keep their order: removing from two parts in turn is removing from the whole |
| Toast.GetIcon | MoviesAndStuff.Front/src/app/components/toast/toast.component.ts:39-46 | success, error and info get their icons; any other type the info icon |
| Toast.RemoveKeepsValid | MoviesAndStuff.Front/src/app/components/toast/toast.component.ts:35-37 | removal keeps the ids unique, increasing and below the counter |
| Toast.ShowThenExpire | MoviesAndStuff.Front/src/app/components/toast/toast.component.ts:28-37 | a toast shown and then removed by its own timer leaves the stack as it was |
| Toast.RemoveAtMostOne | MoviesAndStuff.Front/src/app/components/toast/toast.component.ts:35-37 | removal by id removes at most one toast |
| Toast.RemoveCount | MoviesAndStuff.Front/src/app/components/toast/toast.component.ts:36 | filtering increasing ids by one id drops at most one toast, and none when no toast has the id |
| Toast.IconsDistinct | MoviesAndStuff.Front/src/app/components/toast/toast.component.ts:39-46 | the success, error and info icons are pairwise distinct |
| Toast.ShowsNumberFromOne | MoviesAndStuff.Front/src/app/components/toast/toast.component.ts:26-30 | after any run of shows from the start the ids are 1, 2, 3, … in order |

## Left out

- DtoValidation.MovieFormErrors: a rating whose rounded value lies outside the 32-bit integer range makes the conversion behind `[Range]` throw, and the source then answers 500. The model reports such a rating as failing, which gives 400. Ratings with more than one decimal place are not represented, because ratings are tenths.
- DtoValidation.GameFormErrors: the same out-of-range rating that answers 500 in the source is a failing rating in the model, as for movies.
- DtoValidation.LengthOk: `[StringLength(n)]` counts UTF-16 code units, while the model counts characters. The two differ for characters outside the Basic Multilingual Plane, such as emoji. For example, 60 emoji make a title of 120 code units, which the source refuses and the model accepts.
- Listing order: the source's media listing query has no `ORDER BY`, so the database returns rows in no guaranteed order, and genres with equal `Order` have no defined order among themselves. The model lists rows in ascending id and breaks genre ties by ascending id. The contracts of `MediaStore.GetAll` and `GenreService.GetAll` state which rows are listed, plus the non-decreasing `Order` of genres, and do not depend on this choice.
- Ids: route ids and `GenreId` are C# `long`; the model's `Id` is a `nat`. Identity values are positive, so no negative id is ever stored, and in the source a negative id in a route or a request answers like any absent id (404, or 400 "Invalid Genre ID" for a genre reference). The model has no negative ids and does not state that case.
- GenreService.Delete: the genre directory and the movie and game stores are separate values, so deleting a genre is stated on the directory, and its effect on movies and games is stated on a store by `MediaStore.GenreDeleted`. No single member composes the two.
- Persistence: the EF Core mapping, `IQueryable` translation, SQL collation, the rest of the schema configuration, migrations and seed data. Of the configuration, only the genre foreign key's `ON DELETE SET NULL` is modelled, as `MediaStore.GenreDeleted`. The store is a finite map. The column limits appear only as the constants of `DtoValidation.MovieFitsSchema` and `DtoValidation.GameFitsSchema`.
- Commits: `SaveChangesAsync` is a parameter of every operation that commits and can fail. Toggle and delete are modelled with a successful save, because no controller catches their exceptions.
- Time and scheduling: `DateTime.UtcNow` and `new Date()` are parameters. The 400 ms and 300 ms search debounces, the 200 ms blur delay and the toast's 3 s timer are left out; a settled search and a toast's expiry are explicit events. The client code has no last-request-wins guard, and none is modelled.
- Dropdown.SearchSettled: the settled text is compared only with the previous settled text, which is what `distinctUntilChanged` does after the debounce. The debounce timing itself is not modelled.
- DOM behaviour: focus and blur handling, `getBoundingClientRect` (the left-half test is a boolean input), the `clickedInside` flags, `document.body` styling, and the confirm modal.
- HTTP transport in the client services: only the game list's query building is modelled. The other client services and their error switches are not part of this model.
- `GenresController.GetAllMediaTypes`: the service method it calls is not declared by the genre service, so the action is not modelled.
- Numbers in the client: JavaScript `Number` is modelled for optionally signed decimal integers only. Hexadecimal, exponent and fractional forms are not.
- DurationInput.HhmmToMinutes: the text is assumed to be made of digits and colons, which is all the component itself ever produces.
- Negative or fractional minute values in the duration pipe and the duration input: the component only produces whole non-negative minutes.
- Enums on the wire: the game list query carries the play filter as an abstract value, not as its `toString()` text.
- Lower-casing and white space: these are ASCII only, not locale-aware.
- Console logging and router navigation after a save.
- Stale or superseded files: the string-id model classes, the controller tests written against an older API, the commented-out service tests, the older movie form and list pages, and the differing service interface names.
- Error messages in the media controllers: the text of `ModelState` errors is represented by the list of failing field names.

## Findings

| source | as written | input that shows it | evidently intended | confidence | as-written member | corrected member |
|---|---|---|---|---|---|---|
| MoviesAndStuff.Front/src/app/games/games-list/games-list.component.ts:24-28 | the game list passes the selected filter under the key `watchFilter`, but `getGamesList` reads only `playFilter` (games.service.ts:38-39), so the filter is never sent | select "Played" in the game list: the request has no `filter` parameter | pass the filter as `playFilter`, so a filter other than All is sent as `filter` | not executed | GamesList.LoadItemsAsWritten, shown by GamesList.PlayedFilterDroppedAsWritten | GamesList.LoadItems, with GamesList.LoadSendsSelection |
| MoviesAndStuff.Api/MoviesAndStuff.Api/Controllers/GamesController.cs:89-92 | a concurrency conflict while updating a game answers 404 "Movie not found" | update stored game 1 with a valid request while another writer changes the row | answer 404 "Game not found" | not executed | GamesController.UpdateAsWritten, shown by GamesController.UpdateAsWrittenNamesMovie | GamesController.Update, with GamesController.UpdateNamesGame |

Even with the first finding corrected, the server's `GET /api/games` action
(GamesController.cs:25-31) takes no status filter, so the filter has no effect
on the answer. `GamesController.GetAll` models that.
