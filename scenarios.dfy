/**
 * Clients of the data manager: what a caller can conclude from the
 * contracts alone about concrete runs.
 */
module Scenarios {
  import opened Records
  import opened Queries
  import opened Edits
  import opened Store

  /** A store whose file was never written has no user to take the maximum
      id of, so adding the first user fails and writes nothing. */
  method FirstUserOnFreshStore()
  {
    var store := new JsonDataManager(None, true);
    var out := store.AddUser("Alice");
    assert out == Failed(EmptyStore);
    assert store.file == None;
  }

  const InceptionResponse: map<string, string> := map[
    "Title" := "Inception", "Director" := "Christopher Nolan", "Year" := "2010",
    "imdbRating" := "8.8", "Poster" := "-", "Plot" := "-"]

  const Inception: Movie := Movie(1, "Inception", "Christopher Nolan", "2010", "8.8", "-", "-")

  const Alice: User := User(1, "Alice", [])

  /** The response has every key read, and yields the expected movie. */
  lemma InceptionResponseComplete()
    ensures FirstMissing(ResponseKeys, InceptionResponse).None?
    ensures MovieFromResponse(1, InceptionResponse) == Inception
  {
  }

  /** Alice, with no movies, adds "Inception" twice: the first call stores
      it as movie 1, the second is rejected and changes nothing. Her name
      list and a save of the loaded document are unaffected. */
  method AddSameTitleTwice()
  {
    var store := new JsonDataManager(Some([Alice]), true);
    var after := [Alice.(movies := [Inception])];
    InceptionResponseComplete();
    assert HasUser([Alice], 1) by { assert [Alice][0].id == 1; }
    assert MoviesOf([Alice], 1) == [] by { assert [Alice][1..] == []; }
    assert AppendMovie([Alice], 1, Inception) == after by {
      assert AppendMovie([Alice], 1, Inception)[0] == after[0];
    }

    var out := store.AddMovie(Response(InceptionResponse), 1);
    assert out == Done && store.GetData() == after;

    assert HasUser(after, 1) by { assert after[0].id == 1; }
    assert Titles(MoviesOf(after, 1)) == ["Inception"] by { assert after[1..] == []; }
    out := store.AddMovie(Response(InceptionResponse), 1);
    assert out == MovieAlreadyExists && store.GetData() == after;

    var names := store.GetAllUsers();
    assert names == ["Alice"];

    var ok := store.SaveData(store.GetData());
    assert ok && store.GetData() == after;
  }
}
