/** What a request handler sees of the HTTP layer and what it hands back:
    the principal carried by the session, the form fields, and an abstract
    response tag in place of redirects and rendered templates. */
module Http {
  import opened Schema

  /** The pages a handler redirects to. */
  datatype Target = IndexPage | LoginPage | MyPlaylistsPage | PlaylistPage(id: Id)

  /** The abstract response of one request. The three views carry the rows
      their template is given. */
  datatype Outcome =
    | Redirect(to: Target)
    | LoginForm
    | IndexView(songs: map<Id, Song>, playlists: map<Id, Playlist>)
    | PlaylistsView(playlists: map<Id, Playlist>)
    | PlaylistView(id: Id, playlist: Playlist, items: map<Id, Item>)
    | AccessDenied
    | NotFound
    | LoginFailed
    | LoginRequired

  /** The store after the request's commit, and the response. */
  datatype Reply = Reply(store: Store, outcome: Outcome)

  /** A form field is truthy when it was sent and is not the empty string. */
  predicate Filled(field: Option<string>) {
    field.Some? && field.value != ""
  }

  /** `@login_required` lets a request through when the session's user id
      loads a stored user; any other session is anonymous. */
  predicate Authenticated(st: Store, principal: Option<Id>) {
    principal.Some? && principal.value in st.users
  }

  /** The `current_user.role == 'admin'` test on an authenticated request. */
  predicate ActsAsAdmin(st: Store, principal: Option<Id>) {
    Authenticated(st, principal) && IsAdmin(st.users[principal.value])
  }
}
