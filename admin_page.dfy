/** The admin page: the login gate against the configured credentials, the
    list of games, the selection of games to delete and the deletions. The
    server's answers are parameters. */
module AdminPage {
  import opened JsText

  /** `prev.filter((id) => id !== gameId)` */
  function RemoveAll(xs: seq<string>, id: string): (r: seq<string>)
    ensures id !in r
    ensures id !in xs ==> r == xs
  {
    if xs == [] then []
    else (if xs[0] == id then [] else [xs[0]]) + RemoveAll(xs[1..], id)
  }

  /** Every other id keeps its number of occurrences. */
  lemma {:induction false} RemoveAllKeepsOthers(xs: seq<string>, id: string, x: string)
    requires x != id
    ensures multiset(RemoveAll(xs, id))[x] == multiset(xs)[x]
  {
    if xs != [] {
      assert xs == [xs[0]] + xs[1..];
      RemoveAllKeepsOthers(xs[1..], id, x);
    }
  }

  /** Filtering a concatenation filters each part in place, so the ids
      that stay keep their order. */
  lemma {:induction false} RemoveAllAppend(a: seq<string>, b: seq<string>, id: string)
    ensures RemoveAll(a + b, id) == RemoveAll(a, id) + RemoveAll(b, id)
  {
    if a == [] {
      assert a + b == b;
    } else {
      assert (a + b)[1..] == a[1..] + b;
      RemoveAllAppend(a[1..], b, id);
    }
  }

  /** toggleSelect(gameId): a selected id is removed everywhere, an
      unselected one is appended at the end. */
  function Toggle(selected: seq<string>, id: string): (r: seq<string>)
    ensures id !in selected ==> r == selected + [id]
    ensures id in selected ==> r == RemoveAll(selected, id) && id !in r
  {
    if id in selected then RemoveAll(selected, id) else selected + [id]
  }

  /** Toggling an unselected id twice gives the selection back. */
  lemma ToggleTwiceRestores(selected: seq<string>, id: string)
    requires id !in selected
    ensures Toggle(Toggle(selected, id), id) == selected
  {
    RemoveAllAppend(selected, [id], id);
    assert RemoveAll([id], id) == [];
  }

  /** Toggling a selected id twice leaves it selected once, at the end,
      with the other ids in their old order. */
  lemma ToggleSelectedTwiceMovesToEnd(selected: seq<string>, id: string)
    requires id in selected
    ensures Toggle(Toggle(selected, id), id) == RemoveAll(selected, id) + [id]
  {
  }

  class AdminView {
    var isLoggedIn: bool
    var username: string
    var password: string
    var games: seq<string>
    var totalGames: nat
    var selected: seq<string>
    /** The ids of every DELETE request sent, in order. */
    var deleteRequests: seq<string>
    /** How many times the games list was requested. */
    var fetches: nat

    constructor()
      ensures !isLoggedIn && username == "" && password == "" && games == [] && totalGames == 0
      ensures selected == [] && deleteRequests == [] && fetches == 0
    {
      isLoggedIn := false;
      username := "";
      password := "";
      games := [];
      totalGames := 0;
      selected := [];
      deleteRequests := [];
      fetches := 0;
    }

    /** fetchGames(): on an answer, stores the games and their count; on a
        failure, only logs. */
    method FetchGames(answer: Option<seq<string>>)
      modifies this
      ensures fetches == old(fetches) + 1
      ensures answer.Some? ==> games == answer.value && totalGames == |answer.value|
      ensures answer.None? ==> games == old(games) && totalGames == old(totalGames)
      ensures isLoggedIn == old(isLoggedIn) && selected == old(selected) && deleteRequests == old(deleteRequests)
      ensures username == old(username) && password == old(password)
    {
      fetches := fetches + 1;
      if answer.Some? {
        games := answer.value;
        totalGames := |answer.value|;
      }
    }

    /** handleLogin(): logs in and fetches the games exactly when the typed
        user name and password equal the configured ones; an unset
        configuration value matches nothing. */
    method HandleLogin(adminUser: Option<string>, adminPass: Option<string>, answer: Option<seq<string>>)
      modifies this
      ensures var matches := adminUser == Some(old(username)) && adminPass == Some(old(password));
        && (matches ==> isLoggedIn && fetches == old(fetches) + 1)
        && (matches && answer.Some? ==> games == answer.value && totalGames == |answer.value|)
        && (!(matches && answer.Some?) ==> games == old(games) && totalGames == old(totalGames))
        && (!matches ==> isLoggedIn == old(isLoggedIn) && fetches == old(fetches))
      ensures selected == old(selected) && deleteRequests == old(deleteRequests)
      ensures username == old(username) && password == old(password)
    {
      if adminUser == Some(username) && adminPass == Some(password) {
        isLoggedIn := true;
        FetchGames(answer);
      }
    }

    /** toggleSelect(gameId). */
    method ToggleSelect(id: string)
      modifies this
      ensures selected == Toggle(old(selected), id)
      ensures games == old(games) && deleteRequests == old(deleteRequests) && isLoggedIn == old(isLoggedIn)
      ensures username == old(username) && password == old(password) && totalGames == old(totalGames)
      ensures fetches == old(fetches)
    {
      selected := Toggle(selected, id);
    }

    /** deleteGame(gameId): one DELETE; the games are refetched only when
        it succeeds (axios rejects on a failure and the await throws). */
    method DeleteGame(id: string, succeeded: bool, answer: Option<seq<string>>)
      modifies this
      ensures deleteRequests == old(deleteRequests) + [id]
      ensures fetches == old(fetches) + (if succeeded then 1 else 0)
      ensures succeeded && answer.Some? ==> games == answer.value && totalGames == |answer.value|
      ensures !(succeeded && answer.Some?) ==> games == old(games) && totalGames == old(totalGames)
      ensures selected == old(selected) && isLoggedIn == old(isLoggedIn)
      ensures username == old(username) && password == old(password)
    {
      deleteRequests := deleteRequests + [id];
      if succeeded {
        FetchGames(answer);
      }
    }

    /** deleteSelected(): one DELETE per selected id; when all succeed the
        selection is emptied and the games are refetched; when one fails the
        awaited Promise.all rejects and neither happens. All requests are
        sent before any answer is awaited. */
    method DeleteSelected(allSucceeded: bool, answer: Option<seq<string>>)
      modifies this
      ensures deleteRequests == old(deleteRequests) + old(selected)
      ensures allSucceeded ==> selected == [] && fetches == old(fetches) + 1
      ensures !allSucceeded ==> selected == old(selected) && fetches == old(fetches)
      ensures allSucceeded && answer.Some? ==> games == answer.value && totalGames == |answer.value|
      ensures !(allSucceeded && answer.Some?) ==> games == old(games) && totalGames == old(totalGames)
      ensures isLoggedIn == old(isLoggedIn) && username == old(username) && password == old(password)
    {
      deleteRequests := deleteRequests + selected;
      if allSucceeded {
        selected := [];
        FetchGames(answer);
      }
    }
  }
}
