/** The header flags of the frontend's root layout, derived from the
    location's pathname alone. */
module RootLayout {
  import opened Text

  /** The three props the root layout passes to the header. */
  datatype HeaderFlags = HeaderFlags(showBack: bool, showAddButton: bool, showLoginButton: bool)

  predicate IsHome(path: string) {
    path == "/"
  }

  predicate IsSearch(path: string) {
    path == "/search" || path == "/search/"
  }

  /** The detail test as written: a prefix test for "/serie/". */
  predicate IsDetail(path: string) {
    StartsWith(path, "/serie/")
  }

  predicate IsLogin(path: string) {
    path == "/login" || path == "/login/"
  }

  /** The flags for a pathname: a back button on detail and search pages, the
      add button on the home page, the login button everywhere but the login page. */
  function HeaderFor(path: string): (h: HeaderFlags)
    ensures !(h.showBack && h.showAddButton)
  {
    HeaderFlags(IsDetail(path) || IsSearch(path), IsHome(path), !IsLogin(path))
  }

  /** The home page shows the add and login buttons and no back button, and only it shows the add button. */
  lemma {:induction false} HomeHeader(path: string)
    ensures HeaderFor("/") == HeaderFlags(false, true, true)
    ensures HeaderFor(path).showAddButton <==> path == "/"
  {
  }

  /** Both spellings of the search page show a back button and the login button. */
  lemma {:induction false} SearchHeader()
    ensures HeaderFor("/search") == HeaderFlags(true, false, true)
    ensures HeaderFor("/search/") == HeaderFlags(true, false, true)
  {
  }

  /** Only the login page, in either spelling, hides the login button; it shows no other button. */
  lemma {:induction false} LoginHeader(path: string)
    ensures HeaderFor("/login") == HeaderFlags(false, false, false)
    ensures HeaderFor("/login/") == HeaderFlags(false, false, false)
    ensures !HeaderFor(path).showLoginButton <==> path == "/login" || path == "/login/"
  {
    assert "/login/"[..7][1] == 'l';
  }

  /** Every path under "/serie/" shows a back button and the login button. */
  lemma {:induction false} DetailHeader(id: string)
    ensures HeaderFor("/serie/" + id) == HeaderFlags(true, false, true)
  {
    var path := "/serie/" + id;
    assert path[..7] == "/serie/";
    assert path[3] == 'r';
  }

  /** A back button appears exactly on search pages and under "/serie/". */
  lemma {:induction false} BackButton(path: string)
    ensures HeaderFor(path).showBack <==> IsSearch(path) || StartsWith(path, "/serie/")
  {
  }

  /** The detail pages the app links to live under "/series/", where the prefix test fails: no back button there. */
  lemma {:induction false} SeriesPathHasNoBack(id: string)
    ensures !HeaderFor("/series/" + id).showBack
    ensures HeaderFor("/series/" + id) == HeaderFlags(false, false, true)
  {
    var path := "/series/" + id;
    assert path[6] == 's';
  }

  // ---------------------------------------------------------------------
  // The detail test as evidently intended

  /** The detail test for the route the app navigates to, "/series/<id>". */
  predicate IsDetailIntended(path: string) {
    StartsWith(path, "/series/")
  }

  function HeaderForIntended(path: string): (h: HeaderFlags)
    ensures !(h.showBack && h.showAddButton)
    ensures !IsDetail(path) && !IsDetailIntended(path) ==> h == HeaderFor(path)
  {
    HeaderFlags(IsDetailIntended(path) || IsSearch(path), IsHome(path), !IsLogin(path))
  }

  /** With the intended prefix every detail page shows the back button. */
  lemma {:induction false} SeriesPathHasBack(id: string)
    ensures HeaderForIntended("/series/" + id) == HeaderFlags(true, false, true)
  {
    var path := "/series/" + id;
    assert path[..8] == "/series/";
  }
}
