# A verified model of the moviweb JSON data manager

moviweb is a small movie-tracking web application. Users register and attach movies to their profile; the movie details come from an online movie-metadata lookup. Users can then update or delete those entries. All of its state lives in one JSON document, a list of users `{id, name, movies}`. Each `movies` entry is a list of `{id, name, director, year, rating, poster, plot}`. `JSONDataManager` loads that document whole, changes it in memory and writes it back whole. This project models that manager: its queries and its four mutators, with the file as a field of the manager object.

- `records.dfy` (`Records`) holds the document's records and the values the operations exchange:
  - the lookup's response for a title;
  - a partial movie record for updates;
  - the outcome of a mutation.
- `queries.dfy` (`Queries`) holds the read-only queries as functions of the loaded document: next user id, find user, next movie id and a user's movies.
- `edits.dfy` (`Edits`) holds what each mutation does to the document, as a function from the loaded document to the saved one. Its lemmas state the properties of those functions:
  - fresh ids;
  - the per-user numbering `1..N`, kept by `add_user`, `add_movie` and `delete_movie`, and by `update_movie_info` when the update has no `id` key (an update that sets `id` can break it, as `dict.update` copies that key onto the movie);
  - duplicate titles rejected;
  - field-level merge;
  - everything else unchanged;
  - deletion undoes addition.
- `store.dfy` (`Store`) holds the class `JsonDataManager`. Its field `file` is the JSON file, and `None` means the file does not exist yet. `GetData` reads the field and `SaveData` replaces it. Each mutator loads the document, changes it in loops as the source does, and writes it back. The loops of `delete_movie`, and the inner loop of `update_movie_info`, are module-level methods of `Store`, each proved equal to a function of `Edits`. Each mutator's `ensures` ties the new `file` to the matching function in `Edits`, or says that nothing was written.
- `scenarios.dfy` (`Scenarios`) holds two client runs. They derive concrete outcomes from the contracts alone:
  - on a store whose file was never written, adding a user fails;
  - adding "Inception" to Alice twice stores it once, as movie 1.

Exceptions that the source catches and turns into a message string become `Failed(cause)` outcomes. With `Failed`, nothing is written. The causes are:
- an empty store for `max`;
- a failed lookup;
- a key missing from the lookup response;
- a file that cannot be opened for writing, modelled by the manager's `canWrite` flag.

Python's `None` return is `Done`, and the string "Movie already exists" is `MovieAlreadyExists`.

Three behaviours of the code are modelled as written:
- `add_user` on an empty document fails, because `max` of no ids raises. So a store whose file was never written never gets its first user.
- `add_movie` for an absent user returns `None` and writes nothing; no "user not found" is reported.
- When the document holds several users with the same id, the model does what the code does. `add_movie` appends the movie to each of them. `delete_movie` gives each of them the concatenation of their lists, minus the deleted movie, renumbered. `update_movie_info` patches each one's first matching movie. The store's own operations never create such duplicates (`AddUserKeepsWellFormed`), and most lemmas about effects assume a single owner.

## Model

| member | source | states |
|---|---|---|
| Store.JsonDataManager.constructor | DataManager/json_data_manager.py:64-69 | a manager over a file that does not exist reads as the empty document |
| Store.JsonDataManager.GetData | DataManager/json_data_manager.py:64-69 | a file that does not exist reads as the empty document; otherwise the read gives the file's contents |
| Store.JsonDataManager.SaveData | DataManager/json_data_manager.py:81-83 | the file is replaced whole by the given document, which is what the next read returns; if the file cannot be opened for writing, nothing changes |
| Store.JsonDataManager.GetAllUsers | DataManager/json_data_manager.py:52-55 | the result has one entry per user, in storage order, and entry i is user i's name |
| Queries.MaxUserId | DataManager/json_data_manager.py:92 | the result is at least every user id and is the id of some user |
| Queries.GenerateUserId | DataManager/json_data_manager.py:92 | fails exactly on the empty document; otherwise the new id is greater than every existing id and is one more than an existing id |
| Queries.IdsEqualTo | DataManager/json_data_manager.py:105-106 | every collected id equals the searched id, and the list is empty exactly when no user has that id |
| Queries.FindUserId | DataManager/json_data_manager.py:105-109 | gives a list exactly when some user has the id; the list is then non-empty and every element equals the id |
| Queries.GenerateMovieId | DataManager/json_data_manager.py:121-123 | fails (the `in None` test raises) exactly when the document is non-empty and has no such user; otherwise the result is at least 1 |
| Queries.GenerateMovieIdCount | DataManager/json_data_manager.py:121-122 | for a user that owns its id alone, the generated id is that user's movie count plus one |
| Queries.GenerateMovieIdIsFresh | DataManager/json_data_manager.py:121-122 | for a sole owner whose movies are numbered 1..N, the generated id is used by no movie of that user |
| Queries.MoviesOfSoleOwner | DataManager/json_data_manager.py:220-221 | when one user alone has the id, the comprehension over matching users is exactly that user's movie list |
| Queries.MoviesOfAbsent | DataManager/json_data_manager.py:183-184 | when no user has the id, the comprehension over matching users is empty |
| Queries.MoviesOf | DataManager/json_data_manager.py:220-221 | the comprehension over the users with the id holds exactly the movies of those users: every movie in it belongs to such a user, and every movie of such a user is in it (its shape for one owner and for none: MoviesOfSoleOwner, MoviesOfAbsent) |
| Queries.Titles | DataManager/json_data_manager.py:183-184 | the `movie_info['name']` projection of `check_movie_list`: one title per movie; a title is in the list exactly when some movie has it as its name |
| Queries.GetUserMovies | DataManager/json_data_manager.py:135-141 | gives a list exactly when the user exists; the list is then the movies of the first user with that id |
| Edits.NewUser | DataManager/json_data_manager.py:155-158 | the record appended has the given name, no movies and an id no existing user has |
| Edits.AddUserKeepsWellFormed | DataManager/json_data_manager.py:155-159 | appending the new user keeps user ids unique and every movie list numbered, whatever the name |
| Store.JsonDataManager.AddUser | DataManager/json_data_manager.py:153-163 | on an empty document: EmptyStore and nothing written; otherwise the document becomes the old one plus exactly one record at the end, or WriteFailed and nothing written |
| Edits.FirstMissing | DataManager/json_data_manager.py:189-195 | no key is reported exactly when every key read is present; a reported key is absent and every key before it in reading order is present |
| Edits.MovieFromResponse | DataManager/json_data_manager.py:189-195 | the built movie carries the given id and the response's title as its name |
| Edits.AppendMovie | DataManager/json_data_manager.py:197-198 | every user keeps its id and name; users with another id are unchanged; each user with the id gets a list one longer whose prefix is its old list and whose last element is the new movie (AddMovieEffect, SecondAddIsDuplicate) |
| Store.JsonDataManager.AddMovie | DataManager/json_data_manager.py:176-201 | checked in the source's order, each with nothing written: a failed lookup; an absent user (returns Done); a missing Title; a title already among the user's movie names (MovieAlreadyExists); another missing key; an unwritable file. Otherwise the movie with id count + 1 is appended to the user |
| Edits.AddMovieEffect | DataManager/json_data_manager.py:189-198 | in a well-formed document the new movie gets id N + 1; the owner's list grows by exactly that movie, other users are untouched, and the document stays well formed |
| Edits.AddMovieKeepsTitlesDistinct | DataManager/json_data_manager.py:183-186 | a title that passes the duplicate check keeps the owner's movie names pairwise distinct |
| Edits.SecondAddIsDuplicate | DataManager/json_data_manager.py:183-186 | after a title has been appended to a sole owner, the duplicate check's title list contains it, so adding the same title again gives "Movie already exists" |
| Edits.FirstWithId | DataManager/json_data_manager.py:217-218 | gives no index exactly when no movie has the id; a given index holds the id and no earlier movie has it |
| Edits.WithId | DataManager/json_data_manager.py:217-218 | the `movie_info` comprehension holds a movie exactly when it is in the list and has the id (its head: WithIdHead) |
| Edits.WithIdHead | DataManager/json_data_manager.py:217-224 | the `movie_info` comprehension is empty exactly when no movie has the id; otherwise its head is the first movie with that id |
| Edits.RemoveFirst | DataManager/json_data_manager.py:224 | `list.remove` of an element of the list shortens it by one |
| Edits.RemoveFirstAt | DataManager/json_data_manager.py:224 | removing, by value, the first movie with a given id removes exactly the element at that index and keeps the order of the rest |
| Edits.Renumbered | DataManager/json_data_manager.py:232-235 | the renumbered list has the same length and carries ids 1..N |
| Store.RenumberMovies | DataManager/json_data_manager.py:234-235 | the loop over `enumerate(movies, start=1)` gives exactly the renumbered list: same movies in the same order, the one at position j with id j + 1 |
| Edits.SetMovies | DataManager/json_data_manager.py:227-229 | every user with the id gets the given list; every user keeps its id and name, and users with another id are unchanged |
| Store.GiveMovies | DataManager/json_data_manager.py:227-229 | the loop that hands the shortened list to every user with the id gives exactly SetMovies of the document |
| Store.RenumberOwners | DataManager/json_data_manager.py:231-235 | the loop over the users renumbers the list of each user with the id from 1 and leaves the other users alone |
| Edits.DeleteMovieFrom | DataManager/json_data_manager.py:217-237 | the saved document has the same users with the same ids and names; users with another id are unchanged; either nothing changed or every user with the id holds a list numbered 1..N that is one shorter than the concatenation of their lists (DeleteAbsentIsNoop, DeleteMovieEffect, DeleteUndoesAdd) |
| Edits.RenumberedNumbered | DataManager/json_data_manager.py:232-235 | renumbering a list already numbered 1..N changes nothing |
| Store.JsonDataManager.DeleteMovie | DataManager/json_data_manager.py:214-239 | the written document is DeleteMovieFrom of the loaded one, and it is written even when nothing matched; an unwritable file gives WriteFailed and changes nothing |
| Edits.DeleteAbsentIsNoop | DataManager/json_data_manager.py:217-237 | when the user has no movie with the id, the saved document equals the loaded one |
| Edits.DeleteMovieEffect | DataManager/json_data_manager.py:217-235 | for a sole owner: the first movie with the id is removed and the list is one shorter; survivors keep their order and every field but the id; the ids become 1..N-1; the user's id and name and every other user are unchanged |
| Edits.DeleteKeepsWellFormed | DataManager/json_data_manager.py:217-235 | deletion keeps user ids unique and every movie list numbered 1..N |
| Edits.DeleteUndoesAdd | DataManager/json_data_manager.py:217-235 | in a well-formed document, deleting the movie `add_movie` has just appended restores the document exactly |
| Store.JsonDataManager.UpdateMovieInfo | DataManager/json_data_manager.py:253-267 | the written document is UpdateMovieIn of the loaded one, and it is written even when nothing matched; an unwritable file gives WriteFailed and changes nothing |
| Edits.Merge | DataManager/json_data_manager.py:262 | an update with no keys leaves the movie as it was, and one without an `id` key keeps the movie's id (MergeLaws, RatingOnlyUpdate) |
| Edits.PatchFirst | DataManager/json_data_manager.py:259-263 | with no movie holding the id the list is unchanged; otherwise the first movie with the id becomes its merge with the update; a movie that changes holds the id, no earlier movie holds it, it becomes its merge with the update, and every other movie is unchanged |
| Store.PatchFirstMovie | DataManager/json_data_manager.py:259-263 | the inner loop that merges the first movie with the id and breaks gives exactly PatchFirst of the list |
| Edits.UpdateMovieIn | DataManager/json_data_manager.py:257-263 | every user keeps its id, name and number of movies, and users with another id are unchanged (UpdateMovieEffect, UpdateAbsentIsNoop, UpdateKeepsWellFormed) |
| Edits.MergeLaws | DataManager/json_data_manager.py:262 | `dict.update` with no keys changes nothing; the same update applied twice equals applying it once; two updates in a row equal one update by their overlay |
| Edits.RatingOnlyUpdate | DataManager/json_data_manager.py:262 | an update holding only a rating changes only the rating |
| Edits.UpdateMovieEffect | DataManager/json_data_manager.py:257-263 | for a sole owner, only the first movie with the id changes, and it becomes its merge with the update; every other movie and user is unchanged, and with no match nothing changes (for any number of owners: UpdateAbsentIsNoop) |
| Edits.UpdateAbsentIsNoop | DataManager/json_data_manager.py:257-265 | when no movie of the users with the id has the movie id, the saved document equals the loaded one, however many users share the user id |
| Edits.UpdateKeepsWellFormed | DataManager/json_data_manager.py:257-263 | an update that does not set the id keeps the document well formed |

## Left out

- File I/O. The JSON file is the field `file`, and reading and writing it is plain assignment. Several file-level behaviours are not modelled:
  - JSON encoding;
  - a file whose contents do not parse (`get_data` would raise);
  - a write that fails halfway and leaves a truncated file.
- `add_user` writes to the fixed path `DataManager/movie.json` instead of the manager's own file name. The model writes the manager's file, which is the same file in the application, whose manager is built over that path.
- The metadata lookup (`search_movie` in `DataManager/movie_api.py`) is an HTTP request. It is an input of `AddMovie`: the decoded response, or `Unreachable` when the request raises.
- `float(movie_data["imdbRating"])` is not modelled. `year` and `rating` are kept as the response's text, so a rating that `float` rejects does not give an error in the model. The web layer's `int(year)` and `float(rating)` for updates are not modelled either.
- Store.JsonDataManager.AddMovie: when the response lacks a key, the model reports the first missing key in the order the keys are read, not the exception's text.
- Edits.Merge: an update holds only the seven keys of a movie record. Extra keys that `dict.update` would add to the record are not modelled.
- The web layer (`app.py`), its own copy of the user id generator and the abstract interface (`DataManager/data_manager_interface.py`) are not part of this model. Neither is the scratch script `test.py`.
- Concurrency: two requests can each load, change and save the document, and the last save wins. The model is sequential, so this race is not modelled.
