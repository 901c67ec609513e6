/** The persistent store of the playlist application: the four tables
    `user`, `song`, `playlist` and `playlist_items`, each a finite map from
    its integer primary key to the row's other columns. */
module Schema {

  /** A primary key of any of the four tables. */
  type Id = nat

  datatype Option<+T> = None | Some(value: T)

  const AdminRole: string := "admin"
  const UserRole: string := "user"

  /** A `user` row; `username` is declared unique by the schema. */
  datatype User = User(username: string, password: string, role: string)

  /** A `song` row; songs belong to nobody. */
  datatype Song = Song(title: string, artist: string)

  /** A `playlist` row; `owner` is the `user_id` foreign key. */
  datatype Playlist = Playlist(name: string, owner: Id)

  /** A `playlist_items` row joining one song to one playlist. */
  datatype Item = Item(playlist: Id, song: Id)

  datatype Store = Store(
    users: map<Id, User>,
    songs: map<Id, Song>,
    playlists: map<Id, Playlist>,
    items: map<Id, Item>)

  const EmptyStore: Store := Store(map[], map[], map[], map[])

  predicate IsAdmin(u: User) {
    u.role == AdminRole
  }

  /** The unique constraint on `user.username`. */
  ghost predicate UniqueUsernames(users: map<Id, User>) {
    forall a, b :: a in users && b in users && users[a].username == users[b].username ==> a == b
  }

  /** Every playlist's `user_id` names a stored user. */
  ghost predicate OwnersExist(st: Store) {
    forall p :: p in st.playlists ==> st.playlists[p].owner in st.users
  }

  /** Every item's `playlist_id` and `song_id` name stored rows. */
  ghost predicate ItemsResolve(st: Store) {
    forall i :: i in st.items ==> st.items[i].playlist in st.playlists && st.items[i].song in st.songs
  }

  /** Referential integrity of the whole store, as the schema's keys declare it. */
  ghost predicate Consistent(st: Store) {
    UniqueUsernames(st.users) && OwnersExist(st) && ItemsResolve(st)
  }

  /** `m'` is `m` with exactly one row `v` inserted under a key `m` did not use. */
  ghost predicate AddsOne<V>(m: map<Id, V>, m': map<Id, V>, v: V) {
    exists k: Id :: k !in m && m' == m[k := v]
  }

  /** `m'` keeps exactly the rows of `m` that satisfy `keep`, unchanged. */
  ghost predicate KeepsExactly(m: map<Id, Item>, m': map<Id, Item>, keep: Item -> bool) {
    && (forall i :: i in m' ==> i in m && m'[i] == m[i] && keep(m[i]))
    && (forall i :: i in m && keep(m[i]) ==> i in m')
  }

  /** The rows of the `items` relationship of playlist `pid`. */
  function ItemsOf(items: map<Id, Item>, pid: Id): map<Id, Item> {
    map i | i in items && items[i].playlist == pid :: items[i]
  }

  /** The rows of `Playlist.query.filter_by(user_id=uid)`. */
  function OwnedBy(playlists: map<Id, Playlist>, uid: Id): map<Id, Playlist> {
    map p | p in playlists && playlists[p].owner == uid :: playlists[p]
  }

  /** A non-empty finite set of keys has a largest element. */
  lemma {:induction false} MaxOf(s: set<Id>) returns (m: Id)
    requires s != {}
    ensures m in s && forall k :: k in s ==> k <= m
  {
    var x :| x in s;
    var rest := s - {x};
    if rest == {} {
      assert s == {x};
      m := x;
    } else {
      var r := MaxOf(rest);
      m := if x <= r then r else x;
      assert forall k :: k in s ==> k == x || k in rest;
    }
  }

  /** A non-empty finite set of keys has a smallest element. */
  lemma {:induction false} MinOf(s: set<Id>) returns (m: Id)
    requires s != {}
    ensures m in s && forall k :: k in s ==> m <= k
  {
    var x :| x in s;
    var rest := s - {x};
    if rest == {} {
      assert s == {x};
      m := x;
    } else {
      var r := MinOf(rest);
      m := if r <= x then r else x;
      assert forall k :: k in s ==> k == x || k in rest;
    }
  }

  /** The key SQLite gives a new row of a table without AUTOINCREMENT:
      one more than the largest key in use, or 1 for an empty table. */
  function NextId(used: set<Id>): (r: Id)
    ensures r !in used
    ensures forall k :: k in used ==> k < r
    ensures used == {} ==> r == 1
    ensures used != {} ==> r >= 1 && r - 1 in used
  {
    if used == {} then 1
    else
      assert exists m :: m in used && forall k :: k in used ==> k <= m by {
        var m := MaxOf(used);
      }
      var m :| m in used && forall k :: k in used ==> k <= m;
      m + 1
  }

  /** `User.query.filter_by(username=name).first()`: the matching user with
      the lowest key, or None when no user has that name. */
  function FindUser(users: map<Id, User>, name: string): (r: Option<Id>)
    ensures r.None? <==> forall id :: id in users ==> users[id].username != name
    ensures r.Some? ==> r.value in users && users[r.value].username == name
    ensures r.Some? ==> forall id :: id in users && users[id].username == name ==> r.value <= id
  {
    var named := set id | id in users && users[id].username == name;
    assert forall id :: id in users && users[id].username == name ==> id in named;
    if named == {} then None
    else
      assert exists m :: m in named && forall k :: k in named ==> m <= k by {
        var m := MinOf(named);
      }
      var m :| m in named && forall k :: k in named ==> m <= k;
      Some(m)
  }
}
