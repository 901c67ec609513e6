/** Playlists: creating one, listing the caller's own, adding and removing
    entries, viewing one and deleting one. Viewing and deleting check that
    the caller owns the playlist; adding and removing entries check neither
    ownership nor, when adding, that the referenced rows exist. */
module Playlists {
  import opened Schema
  import opened Http

  /** GET /: every song, and the caller's own playlists. */
  function Index(st: Store, principal: Option<Id>): (r: Reply)
    ensures r.store == st
    ensures !Authenticated(st, principal) ==> r.outcome == LoginRequired
    ensures Authenticated(st, principal) ==>
              && r.outcome.IndexView?
              && r.outcome.songs == st.songs
              && (forall p :: p in r.outcome.playlists <==> p in st.playlists && st.playlists[p].owner == principal.value)
              && (forall p :: p in r.outcome.playlists ==> r.outcome.playlists[p] == st.playlists[p])
  {
    if !Authenticated(st, principal) then Reply(st, LoginRequired)
    else Reply(st, IndexView(st.songs, OwnedBy(st.playlists, principal.value)))
  }

  /** POST /create_playlist: a playlist owned by the caller; a missing or
      empty name is ignored without an error. */
  function CreatePlaylist(st: Store, principal: Option<Id>, name: Option<string>): (r: Reply)
    ensures !Authenticated(st, principal) ==> r == Reply(st, LoginRequired)
    ensures Authenticated(st, principal) ==> r.outcome == Redirect(MyPlaylistsPage)
    ensures r.store != st ==> Authenticated(st, principal) && Filled(name)
    ensures r.store.users == st.users && r.store.songs == st.songs && r.store.items == st.items
    ensures Authenticated(st, principal) && Filled(name) ==>
              AddsOne(st.playlists, r.store.playlists, Playlist(name.value, principal.value))
    ensures Consistent(st) ==> Consistent(r.store)
  {
    if !Authenticated(st, principal) then Reply(st, LoginRequired)
    else if Filled(name) then
      var id := NextId(st.playlists.Keys);
      Reply(st.(playlists := st.playlists[id := Playlist(name.value, principal.value)]), Redirect(MyPlaylistsPage))
    else Reply(st, Redirect(MyPlaylistsPage))
  }

  /** GET /my_collections: exactly the playlists whose owner is the caller. */
  function MyPlaylists(st: Store, principal: Option<Id>): (r: Reply)
    ensures r.store == st
    ensures !Authenticated(st, principal) ==> r.outcome == LoginRequired
    ensures Authenticated(st, principal) ==>
              && r.outcome.PlaylistsView?
              && (forall p :: p in r.outcome.playlists <==> p in st.playlists && st.playlists[p].owner == principal.value)
              && (forall p :: p in r.outcome.playlists ==> r.outcome.playlists[p] == st.playlists[p])
  {
    if !Authenticated(st, principal) then Reply(st, LoginRequired)
    else Reply(st, PlaylistsView(OwnedBy(st.playlists, principal.value)))
  }

  /** POST /add_to_playlist: inserts an entry whenever both ids were sent,
      whoever owns the playlist and whether or not either row exists. */
  function AddToPlaylist(st: Store, principal: Option<Id>, songId: Option<Id>, playlistId: Option<Id>): (r: Reply)
    ensures !Authenticated(st, principal) ==> r == Reply(st, LoginRequired)
    ensures Authenticated(st, principal) ==> r.outcome == Redirect(IndexPage)
    ensures r.store != st ==> Authenticated(st, principal) && songId.Some? && playlistId.Some?
    ensures r.store.users == st.users && r.store.songs == st.songs && r.store.playlists == st.playlists
    ensures Authenticated(st, principal) && songId.Some? && playlistId.Some? ==>
              AddsOne(st.items, r.store.items, Item(playlistId.value, songId.value))
  {
    if !Authenticated(st, principal) then Reply(st, LoginRequired)
    else if songId.Some? && playlistId.Some? then
      var id := NextId(st.items.Keys);
      Reply(st.(items := st.items[id := Item(playlistId.value, songId.value)]), Redirect(IndexPage))
    else Reply(st, Redirect(IndexPage))
  }

  /** GET /playlist/<id>: existence is checked before ownership; the view
      lists exactly the playlist's entries. Nothing is written. */
  function ViewPlaylist(st: Store, principal: Option<Id>, pid: Id): (r: Reply)
    ensures r.store == st
    ensures !Authenticated(st, principal) ==> r.outcome == LoginRequired
    ensures Authenticated(st, principal) && pid !in st.playlists ==> r.outcome == NotFound
    ensures Authenticated(st, principal) && pid in st.playlists ==>
              (r.outcome == AccessDenied <==> st.playlists[pid].owner != principal.value)
    ensures Authenticated(st, principal) && pid in st.playlists && st.playlists[pid].owner == principal.value ==>
              r.outcome.PlaylistView?
    ensures r.outcome.PlaylistView? ==>
              && Authenticated(st, principal)
              && pid in st.playlists && st.playlists[pid].owner == principal.value
              && r.outcome.id == pid && r.outcome.playlist == st.playlists[pid]
              && (forall i :: i in r.outcome.items <==> i in st.items && st.items[i].playlist == pid)
              && (forall i :: i in r.outcome.items ==> r.outcome.items[i] == st.items[i])
    ensures r.outcome in {LoginRequired, NotFound, AccessDenied} || r.outcome.PlaylistView?
  {
    if !Authenticated(st, principal) then Reply(st, LoginRequired)
    else if pid !in st.playlists then Reply(st, NotFound)
    else if st.playlists[pid].owner != principal.value then Reply(st, AccessDenied)
    else Reply(st, PlaylistView(pid, st.playlists[pid], ItemsOf(st.items, pid)))
  }

  /** GET /remove_item/<id>: deletes the entry, whoever owns its playlist,
      and redirects to that playlist's page. */
  function RemoveItem(st: Store, principal: Option<Id>, iid: Id): (r: Reply)
    ensures !Authenticated(st, principal) ==> r == Reply(st, LoginRequired)
    ensures Authenticated(st, principal) && iid !in st.items ==> r == Reply(st, NotFound)
    ensures Authenticated(st, principal) && iid in st.items ==>
              && r.outcome == Redirect(PlaylistPage(st.items[iid].playlist))
              && r.store.items.Keys == st.items.Keys - {iid}
              && (forall i :: i in r.store.items ==> r.store.items[i] == st.items[i])
    ensures r.store.users == st.users && r.store.songs == st.songs && r.store.playlists == st.playlists
    ensures Consistent(st) ==> Consistent(r.store)
  {
    if !Authenticated(st, principal) then Reply(st, LoginRequired)
    else if iid !in st.items then Reply(st, NotFound)
    else Reply(st.(items := st.items - {iid}), Redirect(PlaylistPage(st.items[iid].playlist)))
  }

  /** GET /delete_playlist/<id>: existence before ownership; the owner's
      delete cascades to every entry of the playlist. */
  function DeletePlaylist(st: Store, principal: Option<Id>, pid: Id): (r: Reply)
    ensures !Authenticated(st, principal) ==> r == Reply(st, LoginRequired)
    ensures Authenticated(st, principal) && pid !in st.playlists ==> r == Reply(st, NotFound)
    ensures Authenticated(st, principal) && pid in st.playlists && st.playlists[pid].owner != principal.value ==>
              r == Reply(st, AccessDenied)
    ensures Authenticated(st, principal) && pid in st.playlists && st.playlists[pid].owner == principal.value ==>
              && r.outcome == Redirect(MyPlaylistsPage)
              && r.store.playlists.Keys == st.playlists.Keys - {pid}
              && (forall p :: p in r.store.playlists ==> r.store.playlists[p] == st.playlists[p])
              && KeepsExactly(st.items, r.store.items, (it: Item) => it.playlist != pid)
    ensures r.store.users == st.users && r.store.songs == st.songs
    ensures Consistent(st) ==> Consistent(r.store)
  {
    if !Authenticated(st, principal) then Reply(st, LoginRequired)
    else if pid !in st.playlists then Reply(st, NotFound)
    else if st.playlists[pid].owner != principal.value then Reply(st, AccessDenied)
    else
      var cascade := ItemsOf(st.items, pid).Keys;
      Reply(st.(playlists := st.playlists - {pid}, items := st.items - cascade), Redirect(MyPlaylistsPage))
  }

  /** Every playlist of a consistent store shows up in the listing of its
      owner and of nobody else. */
  lemma ListingsPartition(st: Store, pid: Id, uid: Id)
    requires Consistent(st) && pid in st.playlists && uid in st.users
    ensures MyPlaylists(st, Some(uid)).outcome.PlaylistsView?
    ensures pid in MyPlaylists(st, Some(uid)).outcome.playlists <==> uid == st.playlists[pid].owner
    ensures st.playlists[pid].owner in st.users &&
            pid in MyPlaylists(st, Some(st.playlists[pid].owner)).outcome.playlists
  {
  }

  /** A freshly created playlist appears in its creator's listing. */
  lemma CreatedPlaylistIsListed(st: Store, uid: Id, name: string)
    requires uid in st.users && name != ""
    ensures var after := CreatePlaylist(st, Some(uid), Some(name)).store;
            exists p :: p in MyPlaylists(after, Some(uid)).outcome.playlists && p !in st.playlists
  {
  }

  /** Adding an entry never consults the playlist's owner: a caller who
      does not own an existing playlist still adds to it. */
  lemma AddToPlaylistIgnoresOwnership(st: Store, uid: Id, sid: Id, pid: Id)
    requires uid in st.users && pid in st.playlists && st.playlists[pid].owner != uid
    ensures AddsOne(st.items, AddToPlaylist(st, Some(uid), Some(sid), Some(pid)).store.items, Item(pid, sid))
  {
  }

  /** Removing an entry never consults the playlist's owner either. */
  lemma RemoveItemIgnoresOwnership(st: Store, uid: Id, iid: Id)
    requires uid in st.users && iid in st.items
    requires st.items[iid].playlist in st.playlists && st.playlists[st.items[iid].playlist].owner != uid
    ensures iid !in RemoveItem(st, Some(uid), iid).store.items
  {
  }

  /** Adding an entry keeps the store consistent when both ids name stored
      rows, which the handler itself does not check. */
  lemma AddToPlaylistPreservesConsistency(st: Store, principal: Option<Id>, songId: Option<Id>, playlistId: Option<Id>)
    requires Consistent(st)
    requires songId.Some? ==> songId.value in st.songs
    requires playlistId.Some? ==> playlistId.value in st.playlists
    ensures Consistent(AddToPlaylist(st, principal, songId, playlistId).store)
  {
  }

  /** The missing existence check lets an entry dangle: a consistent store
      with no songs and no playlists gains an entry naming neither. */
  lemma AddToPlaylistCanDangle()
    ensures var st := Store(map[1 := User("student", "123", UserRole)], map[], map[], map[]);
            && Consistent(st)
            && AddToPlaylist(st, Some(1), Some(7), Some(9)).outcome == Redirect(IndexPage)
            && !Consistent(AddToPlaylist(st, Some(1), Some(7), Some(9)).store)
  {
  }

  /** The home page's playlists are exactly the caller's listing. */
  lemma IndexAgreesWithListing(st: Store, uid: Id)
    requires uid in st.users
    ensures Index(st, Some(uid)).outcome.playlists == MyPlaylists(st, Some(uid)).outcome.playlists
  {
  }

  /** Once the owner deletes a playlist it is gone and so are its entries;
      viewing it afterwards is Not Found. */
  lemma DeletedPlaylistIsGone(st: Store, uid: Id, pid: Id)
    requires uid in st.users && pid in st.playlists && st.playlists[pid].owner == uid
    ensures var after := DeletePlaylist(st, Some(uid), pid).store;
            && (forall i :: i in after.items ==> after.items[i].playlist != pid)
            && ViewPlaylist(after, Some(uid), pid).outcome == NotFound
  {
  }

  /** The owner deleting the playlist just created restores the store: in a
      consistent store no entry can refer to the new key. */
  lemma DeleteUndoesCreatePlaylist(st: Store, uid: Id, name: string)
    requires Consistent(st) && uid in st.users && name != ""
    ensures exists k :: k !in st.playlists &&
              DeletePlaylist(CreatePlaylist(st, Some(uid), Some(name)).store, Some(uid), k)
              == Reply(st, Redirect(MyPlaylistsPage))
  {
    var after := CreatePlaylist(st, Some(uid), Some(name)).store;
    var k :| k !in st.playlists && after.playlists == st.playlists[k := Playlist(name, uid)];
    var back := DeletePlaylist(after, Some(uid), k).store;
    assert back.playlists == st.playlists;
    assert back.items == st.items;
  }

  /** Removing the entry just added restores the store and leads back to
      its playlist's page. */
  lemma RemoveUndoesAddToPlaylist(st: Store, principal: Option<Id>, sid: Id, pid: Id)
    requires Authenticated(st, principal)
    ensures exists k :: k !in st.items &&
              RemoveItem(AddToPlaylist(st, principal, Some(sid), Some(pid)).store, principal, k)
              == Reply(st, Redirect(PlaylistPage(pid)))
  {
    var after := AddToPlaylist(st, principal, Some(sid), Some(pid)).store;
    var k :| k !in st.items && after.items == st.items[k := Item(pid, sid)];
    assert RemoveItem(after, principal, k).store.items == st.items;
  }
}
