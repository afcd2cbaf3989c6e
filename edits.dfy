/**
 * What each mutating operation of the JSON data manager does to the
 * document, as functions from the loaded document to the saved one, and
 * the properties of those functions: fresh ids, the per-user numbering
 * 1..N kept by adding a user, adding a movie, deleting a movie and by an
 * update whose patch has no `id` key, duplicate rejection, field-level
 * merge and "every other user and movie unchanged".
 */
module Edits {
  import opened Records
  import opened Queries

  /** A user's movies carry the ids 1..N in list order. */
  predicate Numbered(s: seq<Movie>)
  {
    forall j :: 0 <= j < |s| ==> s[j].id == j + 1
  }

  predicate UniqueUserIds(doc: Document)
  {
    forall i, j :: 0 <= i < j < |doc| ==> doc[i].id != doc[j].id
  }

  /** No two movies of one list share a name. */
  predicate DistinctTitles(s: seq<Movie>)
  {
    forall i, j :: 0 <= i < j < |s| ==> s[i].name != s[j].name
  }

  /** The shape the store's own operations keep: user ids unique, each
      user's movies numbered 1..N. */
  predicate WellFormed(doc: Document)
  {
    UniqueUserIds(doc) && forall i :: 0 <= i < |doc| ==> Numbered(doc[i].movies)
  }

  // ---------------------------------------------------------------- add_user

  /** The record `add_user` appends: next id, the given name, no movies. */
  function NewUser(doc: Document, name: string): (r: User)
    requires doc != []
    ensures r.movies == [] && r.name == name
    ensures !HasUser(doc, r.id)
  {
    User(GenerateUserId(doc).value, name, [])
  }

  /** Appending the new user keeps ids unique and every list numbered,
      whatever the name (duplicate names are allowed). */
  lemma AddUserKeepsWellFormed(doc: Document, name: string)
    requires doc != [] && WellFormed(doc)
    ensures WellFormed(doc + [NewUser(doc, name)])
  {
  }

  // --------------------------------------------------------------- add_movie

  /** The response keys `add_movie` reads, in the order it reads them. */
  const ResponseKeys: seq<string> := ["Title", "Director", "Year", "imdbRating", "Poster", "Plot"]

  /** The first of `keys` missing from `fields`: the `KeyError` raised. */
  function FirstMissing(keys: seq<string>, fields: map<string, string>): (r: Option<string>)
    ensures r.None? <==> forall j :: 0 <= j < |keys| ==> keys[j] in fields
    ensures r.Some? ==> exists j :: (0 <= j < |keys| && keys[j] == r.value && r.value !in fields &&
      forall t :: 0 <= t < j ==> keys[t] in fields)
  {
    if keys == [] then None
    else if keys[0] !in fields then Some(keys[0])
    else
      var rest := FirstMissing(keys[1..], fields);
      assert forall j :: 1 <= j < |keys| ==> keys[j] == keys[1..][j - 1];
      rest
  }

  /** The movie record `add_movie` builds from a complete response. */
  function MovieFromResponse(id: int, fields: map<string, string>): (r: Movie)
    requires FirstMissing(ResponseKeys, fields).None?
    ensures r.id == id && r.name == fields["Title"]
  {
    assert ResponseKeys[0] in fields && ResponseKeys[1] in fields && ResponseKeys[2] in fields;
    assert ResponseKeys[3] in fields && ResponseKeys[4] in fields && ResponseKeys[5] in fields;
    Movie(id, fields["Title"], fields["Director"], fields["Year"],
          fields["imdbRating"], fields["Poster"], fields["Plot"])
  }

  /** Every user whose id is `u` gets `mv` appended to its movies. */
  function AppendMovie(doc: Document, u: int, mv: Movie): (r: Document)
    ensures |r| == |doc|
    ensures forall i :: 0 <= i < |doc| ==> r[i].id == doc[i].id && r[i].name == doc[i].name
    ensures forall i :: 0 <= i < |doc| && doc[i].id != u ==> r[i] == doc[i]
    ensures forall i :: 0 <= i < |doc| && doc[i].id == u ==>
      var n := |doc[i].movies|;
      |r[i].movies| == n + 1 && r[i].movies[..n] == doc[i].movies && r[i].movies[n] == mv
  {
    seq(|doc|, i requires 0 <= i < |doc| =>
      if doc[i].id == u then doc[i].(movies := doc[i].movies + [mv]) else doc[i])
  }

  /** For a well-formed document, the movie `add_movie` builds (id: the
      owner's movie count plus one) extends the owner's numbering by one;
      other users are untouched and the document stays well formed. */
  lemma {:induction false} AddMovieEffect(doc: Document, k: int, fields: map<string, string>)
    requires WellFormed(doc) && 0 <= k < |doc|
    requires FirstMissing(ResponseKeys, fields).None?
    ensures GenerateMovieId(doc, doc[k].id) == Some(|doc[k].movies| + 1)
    ensures var mv := MovieFromResponse(|doc[k].movies| + 1, fields);
      var r := AppendMovie(doc, doc[k].id, mv);
      && WellFormed(r)
      && r[k] == doc[k].(movies := doc[k].movies + [mv])
      && forall i :: 0 <= i < |doc| && i != k ==> r[i] == doc[i]
  {
    assert doc[k] in doc;
    GenerateMovieIdCount(doc, k);
    var mv := MovieFromResponse(|doc[k].movies| + 1, fields);
    var r := AppendMovie(doc, doc[k].id, mv);
    forall i | 0 <= i < |r|
      ensures Numbered(r[i].movies)
    {
      assert Numbered(doc[i].movies);
    }
  }

  /** A title accepted by the duplicate check keeps the owner's titles
      distinct. */
  lemma AddMovieKeepsTitlesDistinct(doc: Document, k: int, mv: Movie)
    requires SoleOwner(doc, k) && DistinctTitles(doc[k].movies)
    requires mv.name !in Titles(MoviesOf(doc, doc[k].id))
    ensures DistinctTitles(AppendMovie(doc, doc[k].id, mv)[k].movies)
  {
    MoviesOfSoleOwner(doc, k);
    var s := doc[k].movies;
    forall j | 0 <= j < |s|
      ensures s[j].name != mv.name
    {
      assert Titles(s)[j] == s[j].name;
    }
  }

  /** Once `add_movie` has stored a title for a sole owner, the duplicate
      check finds it: adding the same title again is rejected. */
  lemma SecondAddIsDuplicate(doc: Document, k: int, fields: map<string, string>)
    requires SoleOwner(doc, k)
    requires FirstMissing(ResponseKeys, fields).None?
    ensures var u := doc[k].id;
      var added := AppendMovie(doc, u, MovieFromResponse(|doc[k].movies| + 1, fields));
      fields["Title"] in Titles(MoviesOf(added, u))
  {
    var u := doc[k].id;
    var n := |doc[k].movies|;
    var added := AppendMovie(doc, u, MovieFromResponse(n + 1, fields));
    assert SoleOwner(added, k);
    MoviesOfSoleOwner(added, k);
    assert Titles(added[k].movies)[n] == fields["Title"];
  }

  // ------------------------------------------------------------ delete_movie

  /** The index of the first movie of `s` whose id is `m`. */
  function FirstWithId(s: seq<Movie>, m: int): (r: Option<nat>)
    ensures r.None? <==> forall j :: 0 <= j < |s| ==> s[j].id != m
    ensures r.Some? ==> (r.value < |s| && s[r.value].id == m &&
      forall j :: 0 <= j < r.value ==> s[j].id != m)
  {
    if s == [] then None
    else if s[0].id == m then Some(0)
    else
      var rest := FirstWithId(s[1..], m);
      assert forall j :: 1 <= j < |s| ==> s[j] == s[1..][j - 1];
      if rest.None? then None else Some(rest.value + 1)
  }

  /** The comprehension `movie_info` of `delete_movie`: the movies of `s`
      whose id is `m`, in order. */
  function WithId(s: seq<Movie>, m: int): (r: seq<Movie>)
    ensures forall mv :: mv in r <==> mv in s && mv.id == m
  {
    if s == [] then []
    else
      assert s == [s[0]] + s[1..];
      (if s[0].id == m then [s[0]] else []) + WithId(s[1..], m)
  }

  /** The first hit of the comprehension is the movie at `FirstWithId`. */
  lemma {:induction false} WithIdHead(s: seq<Movie>, m: int)
    ensures WithId(s, m) == [] <==> FirstWithId(s, m).None?
    ensures WithId(s, m) != [] ==> WithId(s, m)[0] == s[FirstWithId(s, m).value]
  {
    if s != [] && s[0].id != m {
      WithIdHead(s[1..], m);
    }
  }

  /** Python's `list.remove(x)`: drops the first element equal to `x`. */
  function RemoveFirst(s: seq<Movie>, x: Movie): (r: seq<Movie>)
    requires x in s
    ensures |r| == |s| - 1
  {
    if s[0] == x then s[1..] else [s[0]] + RemoveFirst(s[1..], x)
  }

  /** Removing, by value, the first movie with a given id removes exactly
      the element at that index. */
  lemma {:induction false} RemoveFirstAt(s: seq<Movie>, j: nat)
    requires j < |s| && forall t :: 0 <= t < j ==> s[t].id != s[j].id
    ensures RemoveFirst(s, s[j]) == s[..j] + s[j + 1..]
  {
    if j > 0 {
      var tail := s[1..];
      assert s[0] != s[j] by { assert s[0].id != s[j].id; }
      assert tail[j - 1] == s[j];
      assert RemoveFirst(s, s[j]) == [s[0]] + RemoveFirst(tail, tail[j - 1]);
      assert forall t :: 0 <= t < j - 1 ==> tail[t] == s[t + 1];
      RemoveFirstAt(tail, j - 1);
      assert tail[..j - 1] == s[1..j];
      assert tail[j..] == s[j + 1..];
      assert s[..j] == [s[0]] + s[1..j];
    }
  }

  /** The renumbering loop: the movie at position j gets id j + 1. */
  function Renumbered(s: seq<Movie>): (r: seq<Movie>)
    ensures |r| == |s| && Numbered(r)
  {
    seq(|s|, j requires 0 <= j < |s| => s[j].(id := j + 1))
  }

  /** Renumbering a list that is already numbered changes nothing. */
  lemma RenumberedNumbered(s: seq<Movie>)
    requires Numbered(s)
    ensures Renumbered(s) == s
  {
  }

  /** Every user whose id is `u` gets the movie list `s`. */
  function SetMovies(doc: Document, u: int, s: seq<Movie>): (r: Document)
    ensures |r| == |doc|
    ensures forall i :: 0 <= i < |doc| ==> r[i].id == doc[i].id && r[i].name == doc[i].name
    ensures forall i :: 0 <= i < |doc| && doc[i].id != u ==> r[i] == doc[i]
    ensures forall i :: 0 <= i < |doc| && doc[i].id == u ==> r[i].movies == s
  {
    seq(|doc|, i requires 0 <= i < |doc| =>
      if doc[i].id == u then doc[i].(movies := s) else doc[i])
  }

  /** `delete_movie`: if some movie of user `u` has id `m`, the first one is
      removed from the user's (concatenated) list, that list is given to the
      user and renumbered 1..N; otherwise the document is saved as it was. */
  function DeleteMovieFrom(doc: Document, u: int, m: int): (r: Document)
    ensures |r| == |doc|
    ensures forall i :: 0 <= i < |doc| ==> r[i].id == doc[i].id && r[i].name == doc[i].name
    ensures forall i :: 0 <= i < |doc| && doc[i].id != u ==> r[i] == doc[i]
    ensures r == doc || forall i :: 0 <= i < |doc| && doc[i].id == u ==>
      Numbered(r[i].movies) && |r[i].movies| + 1 == |MoviesOf(doc, u)|
  {
    var lst := MoviesOf(doc, u);
    var hits := WithId(lst, m);
    if hits == [] then doc
    else
      WithIdHead(lst, m);
      SetMovies(doc, u, Renumbered(RemoveFirst(lst, hits[0])))
  }

  /** Deleting an id the user does not have leaves the document as it was. */
  lemma DeleteAbsentIsNoop(doc: Document, u: int, m: int)
    requires forall mv :: mv in MoviesOf(doc, u) ==> mv.id != m
    ensures DeleteMovieFrom(doc, u, m) == doc
  {
    WithIdHead(MoviesOf(doc, u), m);
  }

  /** Deleting movie `m` of the sole owner `k`: the first movie with id `m`
      (at index j) is gone, the list is one shorter, survivors keep their
      order and every field but the id, the ids become 1..N-1, and every
      other user is unchanged. */
  lemma DeleteMovieEffect(doc: Document, k: int, m: int, j: nat)
    requires SoleOwner(doc, k)
    requires FirstWithId(doc[k].movies, m) == Some(j)
    ensures var r := DeleteMovieFrom(doc, doc[k].id, m);
      var s := doc[k].movies;
      && |r| == |doc|
      && (forall i :: 0 <= i < |doc| && i != k ==> r[i] == doc[i])
      && r[k].id == doc[k].id && r[k].name == doc[k].name
      && |r[k].movies| == |s| - 1
      && Numbered(r[k].movies)
      && (forall t :: 0 <= t < j ==> r[k].movies[t] == s[t].(id := t + 1))
      && (forall t :: j <= t < |s| - 1 ==> r[k].movies[t] == s[t + 1].(id := t + 1))
  {
    var s := doc[k].movies;
    var u := doc[k].id;
    MoviesOfSoleOwner(doc, k);
    WithIdHead(s, m);
    RemoveFirstAt(s, j);
    var rest := s[..j] + s[j + 1..];
    var r := DeleteMovieFrom(doc, u, m);
    assert r == SetMovies(doc, u, Renumbered(rest));
    assert r[k].movies == Renumbered(rest);
    forall t | 0 <= t < j
      ensures r[k].movies[t] == s[t].(id := t + 1)
    {
      assert rest[t] == s[t];
    }
    forall t | j <= t < |s| - 1
      ensures r[k].movies[t] == s[t + 1].(id := t + 1)
    {
      assert rest[t] == s[t + 1];
    }
  }

  /** Deletion keeps the document well formed. */
  lemma DeleteKeepsWellFormed(doc: Document, u: int, m: int)
    requires WellFormed(doc)
    ensures WellFormed(DeleteMovieFrom(doc, u, m))
  {
  }

  /** Deleting the movie `add_movie` just appended restores the document:
      deletion undoes addition. */
  lemma DeleteUndoesAdd(doc: Document, k: int, fields: map<string, string>)
    requires WellFormed(doc) && 0 <= k < |doc|
    requires FirstMissing(ResponseKeys, fields).None?
    ensures var mv := MovieFromResponse(|doc[k].movies| + 1, fields);
      DeleteMovieFrom(AppendMovie(doc, doc[k].id, mv), doc[k].id, mv.id) == doc
  {
    var s := doc[k].movies;
    var u := doc[k].id;
    var mv := MovieFromResponse(|s| + 1, fields);
    var added := AppendMovie(doc, u, mv);
    AddMovieEffect(doc, k, fields);
    assert SoleOwner(added, k);
    var s' := s + [mv];
    assert added[k].movies == s';
    assert FirstWithId(s', mv.id) == Some(|s|) by {
      assert s'[|s|] == mv;
      assert forall t :: 0 <= t < |s| ==> s'[t] == s[t];
    }
    DeleteMovieEffect(added, k, mv.id, |s|);
    var r := DeleteMovieFrom(added, u, mv.id);
    assert r[k].movies == s by {
      forall t | 0 <= t < |s|
        ensures r[k].movies[t] == s[t]
      {
        assert s'[t] == s[t];
      }
    }
    assert r[k] == doc[k];
    forall i | 0 <= i < |doc|
      ensures r[i] == doc[i]
    {
      if i != k {
        assert r[i] == added[i];
      }
    }
  }

  // ------------------------------------------------------- update_movie_info

  /** `dict.update`: each key present in the patch overwrites that field;
      every absent key keeps its value. */
  function Merge(mv: Movie, p: MoviePatch): (r: Movie)
    ensures p == NoChange ==> r == mv
    ensures p.id.None? ==> r.id == mv.id
  {
    Movie(
      if p.id.Some? then p.id.value else mv.id,
      if p.name.Some? then p.name.value else mv.name,
      if p.director.Some? then p.director.value else mv.director,
      if p.year.Some? then p.year.value else mv.year,
      if p.rating.Some? then p.rating.value else mv.rating,
      if p.poster.Some? then p.poster.value else mv.poster,
      if p.plot.Some? then p.plot.value else mv.plot)
  }

  /** The patch holding no key. */
  const NoChange: MoviePatch := MoviePatch(None, None, None, None, None, None, None)

  /** The patch `q.update` of `p` would give: `q`'s keys win. */
  function Overlay(p: MoviePatch, q: MoviePatch): MoviePatch
  {
    MoviePatch(
      if q.id.Some? then q.id else p.id,
      if q.name.Some? then q.name else p.name,
      if q.director.Some? then q.director else p.director,
      if q.year.Some? then q.year else p.year,
      if q.rating.Some? then q.rating else p.rating,
      if q.poster.Some? then q.poster else p.poster,
      if q.plot.Some? then q.plot else p.plot)
  }

  /** An empty update changes nothing, an update applied twice is applied
      once, and two updates in a row are the update by their overlay. */
  lemma MergeLaws(mv: Movie, p: MoviePatch, q: MoviePatch)
    ensures Merge(mv, NoChange) == mv
    ensures Merge(Merge(mv, p), p) == Merge(mv, p)
    ensures Merge(Merge(mv, p), q) == Merge(mv, Overlay(p, q))
  {
  }

  /** An update holding only `rating` changes only the rating. */
  lemma RatingOnlyUpdate(mv: Movie, v: string)
    ensures Merge(mv, NoChange.(rating := Some(v))) == mv.(rating := v)
  {
  }

  /** The inner loop of `update_movie_info`: the first movie with id `m`
      is merged with `p` and the loop breaks. */
  function PatchFirst(s: seq<Movie>, m: int, p: MoviePatch): (r: seq<Movie>)
    ensures |r| == |s|
    ensures (forall t :: 0 <= t < |s| ==> s[t].id != m) ==> r == s
    ensures FirstWithId(s, m).Some? ==>
      r[FirstWithId(s, m).value] == Merge(s[FirstWithId(s, m).value], p)
    ensures forall t :: 0 <= t < |s| && r[t] != s[t] ==>
      && s[t].id == m && r[t] == Merge(s[t], p)
      && (forall t' :: 0 <= t' < t ==> s[t'].id != m)
      && (forall t' :: 0 <= t' < |s| && t' != t ==> r[t'] == s[t'])
  {
    match FirstWithId(s, m)
    case None => s
    case Some(j) => s[j := Merge(s[j], p)]
  }

  /** `update_movie_info`: for every user with id `u`, its first movie with
      id `m` is merged with `p`. */
  function UpdateMovieIn(doc: Document, u: int, m: int, p: MoviePatch): (r: Document)
    ensures |r| == |doc|
    ensures forall i :: 0 <= i < |doc| ==>
      r[i].id == doc[i].id && r[i].name == doc[i].name && |r[i].movies| == |doc[i].movies|
    ensures forall i :: 0 <= i < |doc| && doc[i].id != u ==> r[i] == doc[i]
  {
    seq(|doc|, i requires 0 <= i < |doc| =>
      if doc[i].id == u then doc[i].(movies := PatchFirst(doc[i].movies, m, p)) else doc[i])
  }

  /** The update touches one movie of the sole owner: the first with id
      `m`, which becomes its merge with `p`; every other movie and user is
      unchanged, and with no such movie nothing changes. */
  lemma UpdateMovieEffect(doc: Document, k: int, m: int, p: MoviePatch)
    requires SoleOwner(doc, k)
    ensures var r := UpdateMovieIn(doc, doc[k].id, m, p);
      var s := doc[k].movies;
      && (forall i :: 0 <= i < |doc| && i != k ==> r[i] == doc[i])
      && r[k].id == doc[k].id && r[k].name == doc[k].name && |r[k].movies| == |s|
      && (FirstWithId(s, m).None? ==> r == doc)
      && (FirstWithId(s, m).Some? ==>
            var j := FirstWithId(s, m).value;
            && s[j].id == m
            && r[k].movies[j] == Merge(s[j], p)
            && forall t :: 0 <= t < |s| && t != j ==> r[k].movies[t] == s[t])
  {
  }

  /** Updating an id the user does not have leaves the document as it was,
      however many users share the id. */
  lemma UpdateAbsentIsNoop(doc: Document, u: int, m: int, p: MoviePatch)
    requires forall mv :: mv in MoviesOf(doc, u) ==> mv.id != m
    ensures UpdateMovieIn(doc, u, m, p) == doc
  {
    forall i | 0 <= i < |doc| && doc[i].id == u
      ensures PatchFirst(doc[i].movies, m, p) == doc[i].movies
    {
      forall t | 0 <= t < |doc[i].movies|
        ensures doc[i].movies[t].id != m
      {
        assert doc[i].movies[t] in doc[i].movies;
      }
    }
  }

  /** An update that leaves the id alone keeps the document well formed. */
  lemma UpdateKeepsWellFormed(doc: Document, u: int, m: int, p: MoviePatch)
    requires WellFormed(doc) && p.id.None?
    ensures WellFormed(UpdateMovieIn(doc, u, m, p))
  {
  }
}
