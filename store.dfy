/**
 * The JSON data manager itself: an object over one JSON file. Reading the
 * file is `GetData`, writing it is `SaveData`; each mutating operation
 * loads the document, changes it step by step and writes it back whole.
 */
module Store {
  import opened Records
  import opened Queries
  import opened Edits

  class JsonDataManager {
    /** The contents of the JSON file; `None` while the file does not exist. */
    var file: Option<Document>
    /** Whether opening the file for writing succeeds. */
    const canWrite: bool

    /** A manager over a file that holds `existing` (or does not exist yet). */
    constructor (existing: Option<Document>, canWrite: bool)
      ensures file == existing && this.canWrite == canWrite
      ensures existing.None? ==> GetData() == []
    {
      file := existing;
      this.canWrite := canWrite;
    }

    /** `get_data`: the parsed file, or the empty list when it is missing. */
    function GetData(): (d: Document)
      reads this
      ensures file.None? ==> d == []
      ensures file.Some? ==> d == file.value
    {
      if file.Some? then file.value else []
    }

    /** `save_data`: replaces the whole file by `d`; opening the file for
        writing fails when it is not writable, and then nothing is written. */
    method SaveData(d: Document) returns (ok: bool)
      modifies this
      ensures ok == canWrite
      ensures file == if ok then Some(d) else old(file)
      ensures ok ==> GetData() == d
    {
      ok := canWrite;
      if ok {
        file := Some(d);
      }
    }

    /** `get_all_users`: the name of every user, in storage order. */
    method GetAllUsers() returns (names: seq<string>)
      ensures |names| == |GetData()|
      ensures forall i :: 0 <= i < |names| ==> names[i] == GetData()[i].name
    {
      var data := GetData();
      names := [];
      for i := 0 to |data|
        invariant |names| == i
        invariant forall k :: 0 <= k < i ==> names[k] == data[k].name
      {
        names := names + [data[i].name];
      }
    }

    /** `add_user`: appends `{id: max + 1, name, movies: []}` and writes the
        file. On an empty document `max` raises and nothing is written.
        Names are not checked for duplicates. */
    method AddUser(name: string) returns (out: Outcome)
      modifies this
      ensures old(GetData()) == [] ==> out == Failed(EmptyStore) && file == old(file)
      ensures old(GetData()) != [] && !canWrite ==> out == Failed(WriteFailed) && file == old(file)
      ensures old(GetData()) != [] && canWrite ==>
        out == Done && GetData() == old(GetData()) + [NewUser(old(GetData()), name)]
    {
      var data := GetData();
      var newId := GenerateUserId(data);
      if newId.None? {
        return Failed(EmptyStore);
      }
      data := data + [User(newId.value, name, [])];
      // written directly, not through SaveData, to the manager's file path
      if !canWrite {
        return Failed(WriteFailed);
      }
      file := Some(data);
      out := Done;
    }

    /** `add_movie`: with the lookup's response for the requested title,
        appends a new movie (id: the user's movie count plus one) to the
        user, unless the user is absent (nothing happens), the title is
        already in the user's collection ("Movie already exists"), or the
        lookup failed or lacks a key (an error; nothing is written). */
    method AddMovie(lookup: Lookup, u: int) returns (out: Outcome)
      modifies this
      ensures var d := old(GetData());
        if lookup.Unreachable? then out == Failed(LookupFailed) && file == old(file)
        else if !HasUser(d, u) then out == Done && file == old(file)
        else if "Title" !in lookup.fields then out == Failed(MissingKey("Title")) && file == old(file)
        else if lookup.fields["Title"] in Titles(MoviesOf(d, u)) then
          out == MovieAlreadyExists && file == old(file)
        else if FirstMissing(ResponseKeys, lookup.fields).Some? then
          out == Failed(MissingKey(FirstMissing(ResponseKeys, lookup.fields).value)) && file == old(file)
        else if !canWrite then out == Failed(WriteFailed) && file == old(file)
        else (out == Done &&
          GetData() == AppendMovie(d, u, MovieFromResponse(|MoviesOf(d, u)| + 1, lookup.fields)))
    {
      var data := GetData();
      if lookup.Unreachable? {
        return Failed(LookupFailed);
      }
      var fields := lookup.fields;
      if FindUserId(data, u).None? {
        return Done;
      }
      var titles := Titles(MoviesOf(data, u));
      if "Title" !in fields {
        return Failed(MissingKey("Title"));
      }
      if fields["Title"] in titles {
        return MovieAlreadyExists;
      }
      var movieId := GenerateMovieId(data, u).value;
      var missing := FirstMissing(ResponseKeys, fields);
      if missing.Some? {
        return Failed(MissingKey(missing.value));
      }
      var movie := MovieFromResponse(movieId, fields);
      ghost var loaded := data;
      for i := 0 to |data|
        invariant |data| == |loaded|
        invariant forall k :: 0 <= k < i ==> data[k] == AppendMovie(loaded, u, movie)[k]
        invariant forall k :: i <= k < |data| ==> data[k] == loaded[k]
      {
        if data[i].id == u {
          data := data[i := data[i].(movies := data[i].movies + [movie])];
        }
      }
      var ok := SaveData(data);
      out := if ok then Done else Failed(WriteFailed);
    }

    /** `delete_movie`: removes the first movie with id `m` from user `u`'s
        list, gives the user the shortened list and renumbers it 1..N; the
        file is written even when there is no such movie. */
    method DeleteMovie(u: int, m: int) returns (out: Outcome)
      modifies this
      ensures canWrite ==> out == Done && file == Some(DeleteMovieFrom(old(GetData()), u, m))
      ensures !canWrite ==> out == Failed(WriteFailed) && file == old(file)
    {
      var data := GetData();
      ghost var loaded := data;
      var hits := WithId(MoviesOf(data, u), m);
      var lst := MoviesOf(data, u);
      if hits == [] {
        assert DeleteMovieFrom(loaded, u, m) == loaded;
      } else {
        WithIdHead(lst, m);
        lst := RemoveFirst(lst, hits[0]);
        data := GiveMovies(data, u, lst);
        data := RenumberOwners(data, u);
        assert data == SetMovies(loaded, u, Renumbered(lst));
      }
      var ok := SaveData(data);
      out := if ok then Done else Failed(WriteFailed);
    }

    /** `update_movie_info`: for each user with id `u`, merges `patch` into
        its first movie with id `m` (only the patch's keys are overwritten),
        then writes the file, also when nothing matched. */
    method UpdateMovieInfo(u: int, m: int, patch: MoviePatch) returns (out: Outcome)
      modifies this
      ensures canWrite ==> out == Done && file == Some(UpdateMovieIn(old(GetData()), u, m, patch))
      ensures !canWrite ==> out == Failed(WriteFailed) && file == old(file)
    {
      var data := GetData();
      ghost var loaded := data;
      for i := 0 to |data|
        // the body calls a method: this says the loop changes no object,
        // so `file` keeps its value until the document is saved
        modifies {}
        invariant |data| == |loaded|
        invariant forall k :: 0 <= k < i ==> data[k] == UpdateMovieIn(loaded, u, m, patch)[k]
        invariant forall k :: i <= k < |data| ==> data[k] == loaded[k]
      {
        if data[i].id == u {
          var movies := PatchFirstMovie(data[i].movies, m, patch);
          data := data[i := data[i].(movies := movies)];
        }
      }
      assert data == UpdateMovieIn(loaded, u, m, patch);
      var ok := SaveData(data);
      out := if ok then Done else Failed(WriteFailed);
    }
  }

  /** The inner loop of `update_movie_info`: the first movie with id `m`
      is merged with `patch`, then the loop breaks. */
  method PatchFirstMovie(movies: seq<Movie>, m: int, patch: MoviePatch) returns (r: seq<Movie>)
    ensures r == PatchFirst(movies, m, patch)
  {
    r := movies;
    var j := 0;
    while j < |r|
      invariant j <= |r| && r == movies
      invariant forall t :: 0 <= t < j ==> r[t].id != m
    {
      if r[j].id == m {
        assert FirstWithId(r, m) == Some(j);
        r := r[j := Merge(r[j], patch)];
        return;
      }
      j := j + 1;
    }
  }

  /** The first loop of `delete_movie`: every user whose id is `u` is given
      the list `s`; the others are left alone. */
  method GiveMovies(data: Document, u: int, s: seq<Movie>) returns (r: Document)
    ensures r == SetMovies(data, u, s)
  {
    r := data;
    for i := 0 to |r|
      invariant |r| == |data|
      invariant forall k :: 0 <= k < i ==> r[k] == SetMovies(data, u, s)[k]
      invariant forall k :: i <= k < |r| ==> r[k] == data[k]
    {
      if r[i].id == u {
        r := r[i := r[i].(movies := s)];
      }
    }
  }

  /** The second loop of `delete_movie`: the movies of every user whose id
      is `u` are numbered from 1; the others are left alone. */
  method RenumberOwners(data: Document, u: int) returns (r: Document)
    ensures |r| == |data|
    ensures forall k :: 0 <= k < |data| && data[k].id == u ==>
      r[k] == data[k].(movies := Renumbered(data[k].movies))
    ensures forall k :: 0 <= k < |data| && data[k].id != u ==> r[k] == data[k]
  {
    r := data;
    for i := 0 to |r|
      invariant |r| == |data|
      invariant forall k :: 0 <= k < i && data[k].id == u ==>
        r[k] == data[k].(movies := Renumbered(data[k].movies))
      invariant forall k :: 0 <= k < i && data[k].id != u ==> r[k] == data[k]
      invariant forall k :: i <= k < |r| ==> r[k] == data[k]
    {
      if r[i].id == u {
        var movies := RenumberMovies(r[i].movies);
        r := r[i := r[i].(movies := movies)];
      }
    }
  }

  /** The loop `for index, movie_info in enumerate(movies, start=1)`
      that fills the id gap: the movie at position j gets id j + 1. */
  method RenumberMovies(movies: seq<Movie>) returns (r: seq<Movie>)
    ensures r == Renumbered(movies)
  {
    r := movies;
    for j := 0 to |r|
      invariant |r| == |movies|
      invariant forall t :: 0 <= t < j ==> r[t] == movies[t].(id := t + 1)
      invariant forall t :: j <= t < |r| ==> r[t] == movies[t]
    {
      r := r[j := r[j].(id := j + 1)];
    }
  }
}
