# Playlist manager: a Dafny model of its request handlers

The application is a small Flask web app. Users log in, browse a shared song catalog and build their own playlists. An admin adds and removes songs. This project models that app as a state machine over an abstract store. The store holds four tables, `user`, `song`, `playlist` and `playlist_items`, each a finite map from primary key to row. Each route handler is a pure function from the store, the session's user id and the request's arguments to a new store and an abstract response: a redirect, one of the rendered views, Access Denied, Not Found, Login Failed, or a login-required redirect.

Files:

- `schema.dfy` (`Schema`): rows, the store, referential integrity (`Consistent`), SQLite's choice of a fresh key (`NextId`) and the lookup of a user by name (`FindUser`).
- `http.dfy` (`Http`): responses, form-field truthiness, and what `@login_required` lets through.
- `catalog.dfy` (`Catalog`): adding, deleting and clearing songs.
- `playlists.dfy` (`Playlists`): the home page, creating, listing, viewing and deleting playlists, and adding and removing entries.
- `auth.dfy` (`Auth`): login, logout and start-up seeding.
- `app.dfy` (`App`): the request dispatcher, invariants over whole runs, and a worked walk-through of the app in use.

The model keeps the handlers' gaps as written:

- Adding an entry checks neither that the caller owns the playlist nor that the song and playlist exist.
- Removing an entry checks no ownership.
- A non-admin who deletes a song or clears the catalog gets a silent redirect. A non-admin who adds a song gets Access Denied.

Because of the first gap, referential integrity is proved for every request except an entry insertion that names a missing row. The lemma that proves it states that exception as a precondition. The handler itself is unchanged.

Two points where the code does less than its schema and routes suggest:

- The schema declares foreign keys on `playlist.user_id` and on both columns of `playlist_items`. SQLite does not enforce them by default, and `add_to_playlist` inserts whatever ids it is sent. `Playlists.AddToPlaylistCanDangle` exhibits the resulting dangling entry.
- Viewing and deleting a playlist are reserved to its owner, but any logged-in user may add and remove its entries (`Playlists.AddToPlaylistIgnoresOwnership`, `Playlists.RemoveItemIgnoresOwnership`).

## Model

| member | source | states |
|---|---|---|
| Schema.NextId | app.py:15-37 | A new row's key is unused and greater than every key in use: one more than the largest, or 1 in an empty table. |
| Schema.FindUser | app.py:62 | The username lookup finds a user with that name exactly when one exists, and picks the lowest such key. |
| Catalog.AddSong | app.py:75-86 | Logged-out callers are sent to login. Exactly the authenticated non-admins get Access Denied. The store changes only for an admin who sent a non-empty title and artist, and then exactly one new song with those fields appears under an unused key. Users, playlists and entries never change, and integrity is kept. |
| Catalog.DeleteSong | app.py:132-140 | The role is checked first, so a non-admin gets a plain redirect and no change even for a missing id. An admin asking for a missing song gets Not Found. Otherwise the song goes, and the entries kept are exactly those not naming it, unchanged. Users and playlists stay the same, and integrity is kept. |
| Catalog.ClearAll | app.py:142-149 | An admin is left with no songs and no entries, with users and playlists unchanged. Any other authenticated caller gets the same redirect and no change. |
| Catalog.DeleteSongLeavesNoReference | app.py:135-139 | After an admin's delete request on a consistent store, no entry refers to that song id. |
| Catalog.DeleteSongTwice | app.py:136 | A second delete of the same song by an admin answers Not Found. |
| Catalog.ClearAllIdempotent | app.py:145-148 | Clearing twice is the same as clearing once. |
| Catalog.DeleteUndoesAddSong | app.py:75-140 | In a consistent store, an admin deleting the song just added gets back exactly the original store. |
| Playlists.Index | app.py:50-55 | The home page shows all songs and exactly the caller's own playlists, and writes nothing. |
| Playlists.IndexAgreesWithListing | app.py:54 | The home page's playlists are the same rows as the caller's listing on its own page (app.py:101). |
| Playlists.CreatePlaylist | app.py:88-96 | With a non-empty name, exactly one new playlist owned by the caller appears under an unused key. With a missing or empty name nothing changes. Songs, users and entries never change, and integrity is kept. |
| Playlists.MyPlaylists | app.py:98-102 | The listing holds exactly the playlists whose owner is the caller, with their stored rows, and writes nothing. |
| Playlists.AddToPlaylist | app.py:104-113 | When both ids were sent, exactly one new entry with those ids appears, with no ownership or existence check. Otherwise nothing changes. Songs, users and playlists never change. |
| Playlists.ViewPlaylist | app.py:115-121 | A missing id gives Not Found before ownership is considered. An existing playlist gives Access Denied exactly when the caller is not its owner. The owner of an existing playlist always gets its page, and the page shows exactly that playlist's entries. The store never changes. |
| Playlists.RemoveItem | app.py:123-130 | A missing entry gives Not Found. An existing one is removed, whoever owns its playlist, with a redirect to its playlist page. Every other row is unchanged, and integrity is kept. |
| Playlists.DeletePlaylist | app.py:151-159 | A missing id gives Not Found and a non-owner gets Access Denied, both with no change. For the owner, the playlist goes and the cascade keeps exactly the entries of other playlists, unchanged. Users and songs stay the same, and integrity is kept. |
| Playlists.ListingsPartition | app.py:101 | In a consistent store every playlist appears in its owner's listing and in no other user's. |
| Playlists.CreatedPlaylistIsListed | app.py:88-102 | A playlist just created with a non-empty name appears in its creator's listing under a new key. |
| Playlists.AddToPlaylistIgnoresOwnership | app.py:106-113 | A user who does not own an existing playlist still adds an entry to it. |
| Playlists.RemoveItemIgnoresOwnership | app.py:125-130 | A user who does not own the entry's playlist still removes the entry. |
| Playlists.AddToPlaylistPreservesConsistency | app.py:106-113 | An entry insertion keeps integrity when each id it sends names a stored row. |
| Playlists.AddToPlaylistCanDangle | app.py:109-112 | A consistent store with no songs and no playlists accepts an entry naming neither, and becomes inconsistent. |
| Playlists.DeletedPlaylistIsGone | app.py:154-159 | After the owner's delete, no entry names the playlist and viewing it gives Not Found. |
| Playlists.DeleteUndoesCreatePlaylist | app.py:88-159 | In a consistent store, the owner deleting the playlist just created gets back exactly the original store. |
| Playlists.RemoveUndoesAddToPlaylist | app.py:104-130 | Removing the entry just added restores the store and redirects to that entry's playlist. |
| Auth.Login | app.py:57-67 | A GET shows the form. A POST succeeds only by starting a session for a stored user whose name and plain-text password both equal the supplied ones. Any failure is Login Failed and leaves the session unchanged. With unique usernames, a POST succeeds exactly when such a user exists. |
| Auth.Logout | app.py:69-73 | An authenticated session is ended with a redirect to the login page. An anonymous one is sent to login. |
| Auth.InsertUserKeepsUnique | app.py:17 | Inserting a user under a new key with an unused name keeps usernames unique. |
| Auth.Seed | app.py:164-167 | When `boss` exists, nothing changes. When `boss` is missing but `student` exists, the unique constraint rejects the commit. Otherwise both accounts are added under two new keys and every existing row is kept. Integrity is kept throughout. |
| Auth.InitialStore | app.py:163-167 | The seeded empty database is consistent, has boss (admin) under key 1 and student under key 2, and has no songs, playlists or entries. |
| Auth.BossLogin | app.py:62-65 | On the seeded database, boss/123 starts an admin session, and a wrong password fails with the session unchanged. |
| Auth.SeedIdempotent | app.py:164-167 | Seeding an already seeded store changes nothing. |
| App.Step | app.py:50-159 | Only login and logout change the session. Only the seven writing routes change the store, and only for an authenticated caller. No route changes the users. Every route except login sends an anonymous caller to login with nothing changed. |
| App.StepPreservesConsistency | app.py:30-36 | Every request keeps referential integrity, except an entry insertion that names a missing song or playlist. |
| App.OnlyAdminsChangeSongs | app.py:78-79 | No request from a caller who is not an admin changes the song table. |
| App.OnlyOwnerChangesPlaylist | app.py:155-156 | No request from anyone but its owner alters or removes a playlist row. |
| App.LogoutEndsAccess | app.py:69-73 | After logout, every route except login sends the caller to login and changes nothing. |
| App.Run | app.py:50-159 | Running any sequence of requests one after another never changes the users table. |
| App.RunPreservesConsistency | app.py:30-36 | A sequence of requests keeps integrity, provided each entry insertion names stored rows at the moment it is handled. |
| App.ScenarioAddSong | app.py:82-85 | On the seeded database, boss adding "Imagine" by Lennon grows the catalog by one song. |
| App.ScenarioCreatePlaylist | app.py:91-101 | Student's new "Favorites" appears in student's listing and not in boss's. |
| App.ScenarioAddEntry | app.py:109-121 | Student adding the song to "Favorites" makes its page show one entry. |
| App.ScenarioDeleteSong | app.py:135-139 | Boss deleting the song leaves "Favorites" with no entries. |

## Left out

- Rendering, `redirect`/`url_for`, `flash` and HTTP status codes: each response is an abstract tag. The three views carry the rows their template receives.
- SQLAlchemy and SQLite mechanics: queries, sessions, lazy relationship loading, transactions and column length limits. Each request is one atomic step on the maps. Foreign keys are not enforced, as in SQLite's default.
- Key allocation is SQLite's rowid rule below the 64-bit limit (`Schema.NextId`). The contracts only promise a key not already in use.
- Ids are unbounded natural numbers, whereas the app's keys are signed 64-bit integers. Three behaviours of that width are not modelled. A path id of 2^63 or more makes the database driver raise an overflow error inside `get_or_404` (app.py:118, 126, 136, 154), a server error that the model answers with Not Found instead. Once key 2^63-1 is in use, SQLite picks a random unused key rather than the largest plus one. A negative numeric form id such as `"-1"` at app.py:110 would be stored as a negative key, which `Option<Id>` cannot express.
- Schema.FindUser: `.first()` has no defined order. The model picks the lowest matching key, which matters only if usernames were not unique, and the schema forbids that.
- Sessions and cookies (`login_user`, `logout_user`, the secret key): the session is an optional user id passed in and returned. `load_user` becomes the check that the id names a stored user.
- Form values are text in the app. Title, artist, name, username and password fields are `Option<string>`, truthy when present and non-empty. The two id fields of `add_to_playlist` are `Option<Id>`: `None` stands for a missing or empty field. A non-numeric id string is not modelled.
- Password hashing does not exist in the app. Passwords are compared as plain text, as written.
- The template value `total_songs_count` is simply the number of songs, and is not modelled.
- `db.create_all` and `app.run`: the schema is taken as given. A rejected seeding commit (`Auth.Seed` returning None) stands for the start-up crash.
