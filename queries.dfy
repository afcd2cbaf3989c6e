/**
 * The read-only queries of the JSON data manager, each a function of the
 * document that `get_data` returns.
 */
module Queries {
  import opened Records

  /** Some user record carries id `u`. */
  predicate HasUser(doc: Document, u: int)
  {
    exists i :: 0 <= i < |doc| && doc[i].id == u
  }

  /** The largest user id, as Python's `max` over the id list. */
  function MaxUserId(doc: Document): (r: int)
    requires doc != []
    ensures forall i :: 0 <= i < |doc| ==> doc[i].id <= r
    ensures exists i :: 0 <= i < |doc| && doc[i].id == r
  {
    if |doc| == 1 then doc[0].id
    else
      var rest := MaxUserId(doc[1..]);
      assert forall i :: 1 <= i < |doc| ==> doc[i] == doc[1..][i - 1];
      if doc[0].id > rest then doc[0].id else rest
  }

  /** `generate_user_id`: one more than the largest id; `max` of an empty
      list raises, given here as `None`. */
  function GenerateUserId(doc: Document): (r: Option<int>)
    ensures r.None? <==> doc == []
    ensures r.Some? ==> forall i :: 0 <= i < |doc| ==> doc[i].id < r.value
    ensures r.Some? ==> HasUser(doc, r.value - 1)
  {
    if doc == [] then None else Some(MaxUserId(doc) + 1)
  }

  /** The comprehension of `find_user_id`: the id of every user whose id is
      `u`, in storage order. */
  function IdsEqualTo(doc: Document, u: int): (r: seq<int>)
    ensures forall x :: x in r ==> x == u
    ensures r == [] <==> !HasUser(doc, u)
  {
    if doc == [] then []
    else
      var rest := IdsEqualTo(doc[1..], u);
      assert HasUser(doc, u) <==> doc[0].id == u || HasUser(doc[1..], u) by {
        assert forall i :: 1 <= i < |doc| ==> doc[i] == doc[1..][i - 1];
      }
      (if doc[0].id == u then [doc[0].id] else []) + rest
  }

  /** `find_user_id`: the list of matching ids if `u` occurs, else `None`. */
  function FindUserId(doc: Document, u: int): (r: Option<seq<int>>)
    ensures r.Some? <==> HasUser(doc, u)
    ensures r.Some? ==> r.value != [] && forall x :: x in r.value ==> x == u
  {
    var ids := IdsEqualTo(doc, u);
    assert ids != [] ==> ids[0] in ids;
    if u in ids then Some(ids) else None
  }

  /** The movies of every user whose id is `u`, concatenated in storage
      order: the comprehensions of `generate_movie_id`, `add_movie` and
      `delete_movie` all range over this list. */
  function MoviesOf(doc: Document, u: int): (r: seq<Movie>)
    ensures forall mv :: mv in r ==>
      exists i :: 0 <= i < |doc| && doc[i].id == u && mv in doc[i].movies
    ensures forall i, mv {:trigger mv in doc[i].movies} ::
      0 <= i < |doc| && doc[i].id == u && mv in doc[i].movies ==> mv in r
  {
    if doc == [] then []
    else
      var rest := MoviesOf(doc[1..], u);
      assert forall i :: 1 <= i < |doc| ==> doc[i] == doc[1..][i - 1];
      (if doc[0].id == u then doc[0].movies else []) + rest
  }

  /** The `name` of each movie, in order. */
  function Titles(s: seq<Movie>): (r: seq<string>)
    ensures |r| == |s|
    ensures forall mv :: mv in s ==> mv.name in r
    ensures forall t :: t in r ==> exists mv :: mv in s && mv.name == t
  {
    var r := seq(|s|, j requires 0 <= j < |s| => s[j].name);
    assert forall j :: 0 <= j < |s| ==> s[j].name == r[j] && r[j] in r && s[j] in s;
    r
  }

  /** Exactly one user, the one at index `k`, carries the id `doc[k].id`. */
  predicate SoleOwner(doc: Document, k: int)
  {
    0 <= k < |doc| && forall i :: 0 <= i < |doc| && i != k ==> doc[i].id != doc[k].id
  }

  /** With a single owner, the concatenation is just that owner's list. */
  lemma {:induction false} MoviesOfSoleOwner(doc: Document, k: int)
    requires SoleOwner(doc, k)
    ensures MoviesOf(doc, doc[k].id) == doc[k].movies
  {
    var u := doc[k].id;
    if k == 0 {
      MoviesOfAbsent(doc[1..], u);
    } else {
      assert SoleOwner(doc[1..], k - 1);
      MoviesOfSoleOwner(doc[1..], k - 1);
    }
  }

  /** No owner, no movies. */
  lemma {:induction false} MoviesOfAbsent(doc: Document, u: int)
    requires !HasUser(doc, u)
    ensures MoviesOf(doc, u) == []
  {
    if doc != [] {
      forall i | 0 <= i < |doc[1..]|
        ensures doc[1..][i].id != u
      {
        assert doc[1..][i] == doc[i + 1];
      }
      MoviesOfAbsent(doc[1..], u);
    }
  }

  /** `generate_movie_id`: the number of movies in the comprehension plus one.
      The comprehension tests `user['id'] in find_user_id(u)`, which raises
      on the first user when `u` is absent; an empty document yields 1. */
  function GenerateMovieId(doc: Document, u: int): (r: Option<int>)
    ensures r.None? <==> doc != [] && !HasUser(doc, u)
    ensures r.Some? ==> r.value >= 1
  {
    if doc != [] && FindUserId(doc, u).None? then None
    else Some(|MoviesOf(doc, u)| + 1)
  }

  /** For a user that owns its id alone, the generated id is its movie
      count plus one. */
  lemma GenerateMovieIdCount(doc: Document, k: int)
    requires SoleOwner(doc, k)
    ensures GenerateMovieId(doc, doc[k].id) == Some(|doc[k].movies| + 1)
  {
    MoviesOfSoleOwner(doc, k);
  }

  /** When that user's movies are also numbered 1..N, the generated id is
      used by none of them. */
  lemma GenerateMovieIdIsFresh(doc: Document, k: int)
    requires SoleOwner(doc, k)
    requires forall j :: 0 <= j < |doc[k].movies| ==> doc[k].movies[j].id == j + 1
    ensures GenerateMovieId(doc, doc[k].id).Some?
    ensures forall j :: 0 <= j < |doc[k].movies| ==>
      doc[k].movies[j].id != GenerateMovieId(doc, doc[k].id).value
  {
    GenerateMovieIdCount(doc, k);
  }

  /** `get_user_movies`: the movie list of the first user with id `u`
      (empty or not), or the "User does not exist" sentinel as `None`. */
  function GetUserMovies(doc: Document, u: int): (r: Option<seq<Movie>>)
    ensures r.Some? <==> HasUser(doc, u)
    ensures r.Some? ==> exists k :: (0 <= k < |doc| && doc[k].id == u &&
      r.value == doc[k].movies && forall i :: 0 <= i < k ==> doc[i].id != u)
  {
    if doc == [] then None
    else if doc[0].id == u then Some(doc[0].movies)
    else
      var rest := GetUserMovies(doc[1..], u);
      assert forall i :: 1 <= i < |doc| ==> doc[i] == doc[1..][i - 1];
      assert HasUser(doc, u) ==> HasUser(doc[1..], u) by {
        if HasUser(doc, u) {
          var i :| 0 <= i < |doc| && doc[i].id == u;
          assert doc[1..][i - 1].id == u;
        }
      }
      rest
  }
}
