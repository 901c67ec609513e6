/** The application as a state machine: one request at a time, each taking
    the store and the session's user id to a new store, a new session and
    a response. */
module App {
  import opened Schema
  import opened Http
  import Auth
  import Catalog
  import Playlists

  /** One HTTP request with the form fields or path argument its route reads. */
  datatype Request =
    | ShowLogin
    | SubmitLogin(username: Option<string>, password: Option<string>)
    | Logout
    | Home
    | AddSong(title: Option<string>, artist: Option<string>)
    | CreatePlaylist(name: Option<string>)
    | MyPlaylists
    | AddToPlaylist(songId: Option<Id>, playlistId: Option<Id>)
    | ViewPlaylist(viewed: Id)
    | RemoveItem(itemId: Id)
    | DeleteSong(song: Id)
    | ClearAll
    | DeletePlaylist(playlist: Id)

  datatype State = State(store: Store, session: Option<Id>)

  /** Requests whose handler may write to the store. */
  predicate Writes(req: Request) {
    req.AddSong? || req.CreatePlaylist? || req.AddToPlaylist? || req.RemoveItem?
    || req.DeleteSong? || req.ClearAll? || req.DeletePlaylist?
  }

  /** Routes one request to its handler. */
  function Step(s: State, req: Request): (r: (State, Outcome))
    ensures r.0.session != s.session ==> req.SubmitLogin? || req.Logout?
    ensures r.0.store != s.store ==> Writes(req) && Authenticated(s.store, s.session)
    ensures r.0.store.users == s.store.users
    ensures !req.ShowLogin? && !req.SubmitLogin? && !Authenticated(s.store, s.session) ==>
              r == (s, LoginRequired)
  {
    match req
    case ShowLogin =>
      var a := Auth.Login(s.store, s.session, false, None, None);
      (s.(session := a.session), a.outcome)
    case SubmitLogin(username, password) =>
      var a := Auth.Login(s.store, s.session, true, username, password);
      (s.(session := a.session), a.outcome)
    case Logout =>
      var a := Auth.Logout(s.store, s.session);
      (s.(session := a.session), a.outcome)
    case Home => Lift(s, Playlists.Index(s.store, s.session))
    case AddSong(title, artist) => Lift(s, Catalog.AddSong(s.store, s.session, title, artist))
    case CreatePlaylist(name) => Lift(s, Playlists.CreatePlaylist(s.store, s.session, name))
    case MyPlaylists => Lift(s, Playlists.MyPlaylists(s.store, s.session))
    case AddToPlaylist(songId, playlistId) => Lift(s, Playlists.AddToPlaylist(s.store, s.session, songId, playlistId))
    case ViewPlaylist(pid) => Lift(s, Playlists.ViewPlaylist(s.store, s.session, pid))
    case RemoveItem(iid) => Lift(s, Playlists.RemoveItem(s.store, s.session, iid))
    case DeleteSong(sid) => Lift(s, Catalog.DeleteSong(s.store, s.session, sid))
    case ClearAll => Lift(s, Catalog.ClearAll(s.store, s.session))
    case DeletePlaylist(pid) => Lift(s, Playlists.DeletePlaylist(s.store, s.session, pid))
  }

  function Lift(s: State, reply: Reply): (State, Outcome) {
    (s.(store := reply.store), reply.outcome)
  }

  /** The request names only stored rows where it names any: true of every
      request except an entry insertion that refers to a missing song or
      playlist. */
  predicate RefersToStoredRows(st: Store, req: Request) {
    req.AddToPlaylist? ==>
      (req.songId.Some? ==> req.songId.value in st.songs) &&
      (req.playlistId.Some? ==> req.playlistId.value in st.playlists)
  }

  /** Referential integrity survives every request, except an insertion of
      a playlist entry naming a row that does not exist. */
  lemma StepPreservesConsistency(s: State, req: Request)
    requires Consistent(s.store) && RefersToStoredRows(s.store, req)
    ensures Consistent(Step(s, req).0.store)
  {
  }

  /** The catalog is admin-only: no request from a caller who is not an
      admin changes the `song` table. */
  lemma OnlyAdminsChangeSongs(s: State, req: Request)
    requires !ActsAsAdmin(s.store, s.session)
    ensures Step(s, req).0.store.songs == s.store.songs
  {
  }

  /** A playlist row changes or disappears only through its owner: no
      request from anyone else alters or removes it. */
  lemma OnlyOwnerChangesPlaylist(s: State, req: Request, pid: Id)
    requires pid in s.store.playlists && s.session != Some(s.store.playlists[pid].owner)
    ensures var after := Step(s, req).0.store;
            pid in after.playlists && after.playlists[pid] == s.store.playlists[pid]
  {
  }

  /** After logging out, every route but login sends the caller to login
      and changes nothing. */
  lemma LogoutEndsAccess(s: State, req: Request)
    requires Authenticated(s.store, s.session)
    requires !req.ShowLogin? && !req.SubmitLogin?
    ensures var out := Step(s, Logout).0;
            out.session == None && Step(out, req) == (out, LoginRequired)
  {
  }

  /** A run of requests, threading the state through. */
  function Run(s: State, reqs: seq<Request>): (r: State)
    ensures r.store.users == s.store.users
    decreases |reqs|
  {
    if |reqs| == 0 then s else Run(Step(s, reqs[0]).0, reqs[1..])
  }

  /** A run from a consistent store stays consistent as long as every
      request refers to stored rows at the moment it is handled. */
  lemma {:induction false} RunPreservesConsistency(s: State, reqs: seq<Request>)
    requires Consistent(s.store)
    requires forall k :: 0 <= k < |reqs| ==> RefersToStoredRows(Run(s, reqs[..k]).store, reqs[k])
    ensures Consistent(Run(s, reqs).store)
    decreases |reqs|
  {
    if |reqs| > 0 {
      assert Run(s, reqs[..0]) == s;
      StepPreservesConsistency(s, reqs[0]);
      var next := Step(s, reqs[0]).0;
      forall k | 0 <= k < |reqs[1..]|
        ensures RefersToStoredRows(Run(next, reqs[1..][..k]).store, reqs[1..][k])
      {
        assert reqs[..k + 1][0] == reqs[0] && reqs[..k + 1][1..] == reqs[1..][..k];
        assert Run(s, reqs[..k + 1]) == Run(next, reqs[1..][..k]);
      }
      RunPreservesConsistency(next, reqs[1..]);
    }
  }

  /** The stores of the walk-through below, one per write. */
  const Seeded: Store := Store(map[1 := Auth.Boss, 2 := Auth.Student], map[], map[], map[])
  const WithSong: Store := Seeded.(songs := map[1 := Song("Imagine", "Lennon")])
  const WithPlaylist: Store := WithSong.(playlists := map[1 := Playlist("Favorites", 2)])
  const WithEntry: Store := WithPlaylist.(items := map[1 := Item(1, 1)])
  const SongDeleted: Store := WithPlaylist.(songs := map[])

  /** Boss adds "Imagine" by Lennon: the catalog grows by one song. */
  lemma ScenarioAddSong()
    ensures Auth.InitialStore() == Seeded
    ensures Step(State(Seeded, Some(1)), AddSong(Some("Imagine"), Some("Lennon")))
            == (State(WithSong, Some(1)), Redirect(IndexPage))
    ensures |WithSong.songs| == |Seeded.songs| + 1
  {
  }

  /** Student creates "Favorites"; only student's listing shows it. */
  lemma ScenarioCreatePlaylist()
    ensures Step(State(WithSong, Some(2)), CreatePlaylist(Some("Favorites")))
            == (State(WithPlaylist, Some(2)), Redirect(MyPlaylistsPage))
    ensures Step(State(WithPlaylist, Some(2)), MyPlaylists).1 == PlaylistsView(map[1 := Playlist("Favorites", 2)])
    ensures Step(State(WithPlaylist, Some(1)), MyPlaylists).1 == PlaylistsView(map[])
  {
  }

  /** Student adds the song to "Favorites"; the playlist page shows one entry. */
  lemma ScenarioAddEntry()
    ensures Step(State(WithPlaylist, Some(2)), AddToPlaylist(Some(1), Some(1)))
            == (State(WithEntry, Some(2)), Redirect(IndexPage))
    ensures Step(State(WithEntry, Some(2)), ViewPlaylist(1)).1
            == PlaylistView(1, Playlist("Favorites", 2), map[1 := Item(1, 1)])
  {
  }

  /** Boss deletes the song; the playlist page now shows no entry. */
  lemma ScenarioDeleteSong()
    ensures Step(State(WithEntry, Some(1)), DeleteSong(1)) == (State(SongDeleted, Some(1)), Redirect(IndexPage))
    ensures Step(State(SongDeleted, Some(2)), ViewPlaylist(1)).1
            == PlaylistView(1, Playlist("Favorites", 2), map[])
  {
  }
}
