/** The song catalog: adding a song, deleting one song with its playlist
    entries, and clearing the whole catalog. All three are reserved to
    admins, but only adding answers a non-admin with Access Denied; the
    two deletions quietly do nothing for them. */
module Catalog {
  import opened Schema
  import opened Http

  /** POST /add. The role is checked before the form; a missing or empty
      title or artist is ignored without an error. */
  function AddSong(st: Store, principal: Option<Id>, title: Option<string>, artist: Option<string>): (r: Reply)
    ensures !Authenticated(st, principal) ==> r == Reply(st, LoginRequired)
    ensures r.outcome == AccessDenied <==> Authenticated(st, principal) && !ActsAsAdmin(st, principal)
    ensures r.store != st ==> ActsAsAdmin(st, principal) && Filled(title) && Filled(artist)
    ensures r.store.users == st.users && r.store.playlists == st.playlists && r.store.items == st.items
    ensures ActsAsAdmin(st, principal) ==> r.outcome == Redirect(IndexPage)
    ensures ActsAsAdmin(st, principal) && Filled(title) && Filled(artist) ==>
              AddsOne(st.songs, r.store.songs, Song(title.value, artist.value))
    ensures Consistent(st) ==> Consistent(r.store)
  {
    if !Authenticated(st, principal) then Reply(st, LoginRequired)
    else if !IsAdmin(st.users[principal.value]) then Reply(st, AccessDenied)
    else if Filled(title) && Filled(artist) then
      var id := NextId(st.songs.Keys);
      Reply(st.(songs := st.songs[id := Song(title.value, artist.value)]), Redirect(IndexPage))
    else Reply(st, Redirect(IndexPage))
  }

  /** GET /delete/<id>. The role is checked before the song is looked up,
      so a non-admin never sees Not Found. The song's items are removed by
      a bulk delete, then the song itself. */
  function DeleteSong(st: Store, principal: Option<Id>, sid: Id): (r: Reply)
    ensures !Authenticated(st, principal) ==> r == Reply(st, LoginRequired)
    ensures Authenticated(st, principal) && !ActsAsAdmin(st, principal) ==> r == Reply(st, Redirect(IndexPage))
    ensures ActsAsAdmin(st, principal) && sid !in st.songs ==> r == Reply(st, NotFound)
    ensures ActsAsAdmin(st, principal) && sid in st.songs ==>
              && r.outcome == Redirect(IndexPage)
              && r.store.songs.Keys == st.songs.Keys - {sid}
              && (forall s :: s in r.store.songs ==> r.store.songs[s] == st.songs[s])
              && KeepsExactly(st.items, r.store.items, (it: Item) => it.song != sid)
              && r.store.users == st.users && r.store.playlists == st.playlists
    ensures Consistent(st) ==> Consistent(r.store)
  {
    if !Authenticated(st, principal) then Reply(st, LoginRequired)
    else if IsAdmin(st.users[principal.value]) then
      if sid !in st.songs then Reply(st, NotFound)
      else
        var items := map i | i in st.items && st.items[i].song != sid :: st.items[i];
        Reply(st.(songs := st.songs - {sid}, items := items), Redirect(IndexPage))
    else Reply(st, Redirect(IndexPage))
  }

  /** GET /clear_all. An admin empties `playlist_items` and `song`; anyone
      else gets the same redirect and no change. */
  function ClearAll(st: Store, principal: Option<Id>): (r: Reply)
    ensures !Authenticated(st, principal) ==> r == Reply(st, LoginRequired)
    ensures Authenticated(st, principal) ==> r.outcome == Redirect(IndexPage)
    ensures Authenticated(st, principal) && !ActsAsAdmin(st, principal) ==> r.store == st
    ensures ActsAsAdmin(st, principal) ==> r.store.songs == map[] && r.store.items == map[]
    ensures r.store.users == st.users && r.store.playlists == st.playlists
    ensures Consistent(st) ==> Consistent(r.store)
  {
    if !Authenticated(st, principal) then Reply(st, LoginRequired)
    else if IsAdmin(st.users[principal.value]) then
      Reply(st.(songs := map[], items := map[]), Redirect(IndexPage))
    else Reply(st, Redirect(IndexPage))
  }

  /** Once an admin has asked for a song's deletion, no playlist entry
      refers to it: either the song and its entries went, or it was missing
      and, in a consistent store, nothing referred to it in the first place. */
  lemma DeleteSongLeavesNoReference(st: Store, principal: Option<Id>, sid: Id)
    requires Consistent(st) && ActsAsAdmin(st, principal)
    ensures forall i :: i in DeleteSong(st, principal, sid).store.items ==>
              DeleteSong(st, principal, sid).store.items[i].song != sid
  {
  }

  /** Deleting the same song twice: the second request finds nothing. */
  lemma DeleteSongTwice(st: Store, principal: Option<Id>, sid: Id)
    requires ActsAsAdmin(st, principal)
    ensures DeleteSong(DeleteSong(st, principal, sid).store, principal, sid).outcome == NotFound
  {
  }

  /** Clearing the catalog is idempotent. */
  lemma ClearAllIdempotent(st: Store, principal: Option<Id>)
    ensures ClearAll(ClearAll(st, principal).store, principal) == ClearAll(st, principal)
  {
  }

  /** Deleting the song an admin has just added restores the store: in a
      consistent store no entry can refer to the new key. */
  lemma DeleteUndoesAddSong(st: Store, principal: Option<Id>, title: string, artist: string)
    requires Consistent(st) && ActsAsAdmin(st, principal) && title != "" && artist != ""
    ensures exists k :: k !in st.songs &&
              DeleteSong(AddSong(st, principal, Some(title), Some(artist)).store, principal, k)
              == Reply(st, Redirect(IndexPage))
  {
    var after := AddSong(st, principal, Some(title), Some(artist)).store;
    var k :| k !in st.songs && after.songs == st.songs[k := Song(title, artist)];
    var back := DeleteSong(after, principal, k).store;
    assert back.songs == st.songs;
    assert back.items == st.items;
  }
}
