# PromptPlay desktop runtime core, modelled in Dafny

This project models three parts of the PromptPlay desktop application (a Tauri
app whose Rust back end exports games as stand-alone HTML pages):

- **The exported game runtime.** This is the `GameRuntime` class that the HTML exporter
  writes into every page (`apps/desktop/src-tauri/src/commands.rs`, lines 268-388). It
  covers:
  - the scene interpreter, which turns the game specification into runtime entities,
    Matter.js bodies and a body registry keyed by entity name;
  - the grounding state machine, which the `collisionStart` and `collisionEnd` listeners
    drive;
  - the keyboard map;
  - the per-frame `update`: velocities come from the keys, the engine takes a step, and
    positions are copied back;
  - the frame loop with `start`, `pause` and `reset`.
- **The ordering of `list_directory`.** Directories come first. Within each kind, names are
  compared case-insensitively.
- **The file-watcher bridge.** It decides which filesystem notifications reach the editor as
  `file-changed` events. It also covers the watcher state and `stop_watching`.

Modules:

- `Wrappers`: `Option`.
- `Hex`: JavaScript's `Number.prototype.toString(16)` and `padStart`, and what the
  hexadecimal text denotes.
- `Physics`: Matter.js bodies, contact pairs, and the engine as a parameter. One step of
  the engine is any function that keeps every body's label, size and kind, and leaves
  static bodies where they are.
- `Scene`: the specification types, the defaulting rules (`||`), the resolved entity, the
  body of a collider-bearing entity, and loading as pure functions with lemmas about them.
- `RuntimeLogic`: the frame logic as functions, with lemmas about them:
  - the entity lookup `find`;
  - the contact listeners;
  - the input loop;
  - the copy back;
  - the clamped time step;
  - one whole frame.
- `GameRuntime`: the class `Runtime` with the runtime's fields. Its methods update those
  fields in place with loops, as the JavaScript does, and each is proved to compute the
  corresponding function. The object invariant `Valid()` says four things:
  - the registry is the one loading built;
  - the world holds the loaded bodies: the same labels, sizes and kinds, with static bodies
    unmoved;
  - the entities keep their loaded identities;
  - only players are ever grounded.
- `DirectoryListing`: the `sort_by` comparator, its total-preorder laws, and an in-place sort
  of an array of `FileInfo`.
- `FileWatcher`: the event filter, the receive loop, and `FileWatcherState` with
  `stop_watching`.

Matter.js's world is a sequence of bodies. `this.bodies` is a map from entity name to a
position in that sequence (a handle). Duplicate entity names therefore behave as the
JavaScript does: a later body overwrites the registry entry, and the earlier body stays in
the world.

Some behaviour of the code is easy to misread; the model follows the code in each case:

- **Reset.** `reset()` only reloads the scene; it does not stop the game. Playing or paused
  is left as it was, and the page's own button state is not touched.
- **Jumping.** A jump clears `isGrounded` at once, in the input loop, rather than waiting
  for the engine's contact-end event.
- **Velocities.** `moveSpeed` and `jumpForce` are not used as velocities directly: they are
  scaled by 0.01 before they are handed to Matter.
- **Body size.** A body takes its size from the collider, and otherwise from the entity's
  resolved sprite size, which includes the default of 32, not from the raw sprite fields.
- **Body angle.** A body is created unrotated: the transform's rotation is not passed to
  `Matter.Bodies.rectangle`. The first copy-back then overwrites the entity's rotation with
  the body's angle.
- **Names.** Entity names are used as keys but never checked for uniqueness. Lemmas that
  need unique names take them as a precondition.
- **Watched events.** Although its comment speaks of modify events only, the watcher
  forwards creations as well as modifications.

## Model

| member | source | states |
|---|---|---|
| Scene.OrNumber | apps/desktop/src-tauri/src/commands.rs:296-304 | `value \|\| fallback`: an absent value or a present zero gives the fallback; otherwise the result is the present non-zero value |
| Scene.OrTint | apps/desktop/src-tauri/src/commands.rs:301 | the same defaulting for the integer tint |
| Scene.EffectiveTint | apps/desktop/src-tauri/src/commands.rs:301 | the displayed tint is positive and is the sprite's own tint whenever that is present and non-zero (mid-grey 0x808080 otherwise) |
| Scene.ColorDenotesTint | apps/desktop/src-tauri/src/commands.rs:301 | the colour is `#` followed by lower-case hex digits that read back as the effective tint; it is exactly 7 characters long iff the tint fits in 24 bits; a longer one has no leading zero |
| Hex.ToHexDigits | apps/desktop/src-tauri/src/commands.rs:301 | `toString(16)` gives a non-empty string of hex digits |
| Hex.ValueOfToHex | apps/desktop/src-tauri/src/commands.rs:301 | reading `toString(16)` back as hexadecimal gives the number again (round trip) |
| Hex.ToHexNoLeadingZero | apps/desktop/src-tauri/src/commands.rs:301 | a positive number's hex text does not start with `0` |
| Hex.ToHexLength | apps/desktop/src-tauri/src/commands.rs:301 | the hex text has at most k digits iff the number is below 16^k |
| Hex.PadStartShape | apps/desktop/src-tauri/src/commands.rs:301 | `padStart(width, fill)` gives the larger of the two lengths, keeps the string as a suffix and fills the front with `fill` |
| Hex.PadStartZeros | apps/desktop/src-tauri/src/commands.rs:301 | padding with `0` prepends exactly the missing number of zeros |
| Hex.PaddedHex | apps/desktop/src-tauri/src/commands.rs:301 | the zero-padded hex text has at least 6 digits, denotes the number, has exactly 6 digits iff the number is below 16^6, and has no leading zero when it is longer |
| Scene.Resolve | apps/desktop/src-tauri/src/commands.rs:293-307 | the resolved entity keeps the specified name and starts not grounded; it has input iff an input component is present; x, y and rotation are the transform's values or 0; width and height are the sprite's or 32; move speed and jump force are the input's or 200 and -400; a zero counts as absent in each case, so none of width, height, move speed and jump force is zero; the colour is the one `ColorDenotesTint` describes; tags are the specified ones or none |
| Scene.ResolveDefaults | apps/desktop/src-tauri/src/commands.rs:293-307 | an entity without a transform stands at (0, 0) unrotated; without a sprite it is 32 by 32 and coloured `#808080`; without input it is no player and has speed 200 and jump force -400; without tags it has none |
| Scene.DefaultColor | apps/desktop/src-tauri/src/commands.rs:301 | the default tint 0x808080 is written `#808080` |
| Scene.DefaultTintHex | apps/desktop/src-tauri/src/commands.rs:301 | `(0x808080).toString(16)` is `808080` |
| Scene.LoadedEntities | apps/desktop/src-tauri/src/commands.rs:288-319 | loading yields one runtime entity per specified entity, in specification order: entity i is specified entity i resolved, and none starts grounded |
| Scene.LoadedPrefix | apps/desktop/src-tauri/src/commands.rs:293-318 | helper for the loop proof of `Runtime.LoadEntities`: the three load functions on the first i+1 entities are the ones on the first i extended by entity i's resolved record and, for a collider, its body and registry entry |
| Scene.BodyMatchesEntity | apps/desktop/src-tauri/src/commands.rs:309-314 | a body has the entity's name and position and angle 0; it is sized by the collider, or else by the resolved sprite size; it is static iff the entity has neither input nor velocity |
| Scene.LoadRegistry | apps/desktop/src-tauri/src/commands.rs:309-317 | after loading, a name is registered iff some specified entity with that name has a collider; every handle points into the world; distinct names have distinct bodies |
| Scene.LoadBodies | apps/desktop/src-tauri/src/commands.rs:309-317 | the body registered under a name is the one built for the last collider-bearing entity of that name |
| Scene.BodyRegistry | apps/desktop/src-tauri/src/commands.rs:293-318 | with unique names: an entity has a registered body iff it declares a collider; that body stands at the entity's position, is sized as above, and is static iff the entity has no velocity and no input |
| RuntimeLogic.Find | apps/desktop/src-tauri/src/commands.rs:323-324 | `entities.find` by name: the first index with that name, or none when no entity has the name |
| RuntimeLogic.FindByNames | apps/desktop/src-tauri/src/commands.rs:323-324 | lookup depends only on the names in the list |
| RuntimeLogic.ContactPairEffect | apps/desktop/src-tauri/src/commands.rs:322-327 | one contact pair sets the flag to the event's value on exactly the entities it touches (a player found on one side while a ground/platform entity is found on the other); everything else is unchanged |
| RuntimeLogic.ContactsEffect | apps/desktop/src-tauri/src/commands.rs:321-337 | after an event's pairs, each entity's flag is the event's value when some pair touched it, and is unchanged otherwise; all other fields are unchanged |
| RuntimeLogic.ContactsKeepInvariant | apps/desktop/src-tauri/src/commands.rs:321-337 | the listeners keep every entity's identity and the invariant that only players are grounded |
| RuntimeLogic.ContactsIdempotent | apps/desktop/src-tauri/src/commands.rs:321-337 | running a listener twice on the same pairs gives what running it once gives, so the extra identical listeners that each reload registers change nothing |
| RuntimeLogic.PairOrderIrrelevant | apps/desktop/src-tauri/src/commands.rs:325-326 | a pair (A, B) has the same effect as the pair (B, A) |
| RuntimeLogic.PlayerOnSupport | apps/desktop/src-tauri/src/commands.rs:321-337 | a player in contact with a ground or platform entity becomes grounded on contact begin and stops being grounded on contact end |
| RuntimeLogic.HorizontalSpeed | apps/desktop/src-tauri/src/commands.rs:359-361 | with right held the speed is +moveSpeed (right wins); with only left held it is -moveSpeed; with neither it is 0 |
| RuntimeLogic.ControlAllEntities | apps/desktop/src-tauri/src/commands.rs:355-366 | the input loop changes no entity except the processed players that jump, whose grounded flag it clears |
| RuntimeLogic.ControlAllWorld | apps/desktop/src-tauri/src/commands.rs:355-366 | with distinct names, the input loop gives each processed player's body the key-derived velocity and leaves every other body untouched |
| RuntimeLogic.PlayerControl | apps/desktop/src-tauri/src/commands.rs:355-366 | with unique names and distinct bodies for distinct names, for a player with a body: vx becomes ±moveSpeed·0.01 from the keys; vy becomes jumpForce·0.01 iff jump is held while grounded and is kept otherwise; the position is kept; the player stays grounded only if it was grounded and did not press jump |
| RuntimeLogic.ControlKeepsInvariant | apps/desktop/src-tauri/src/commands.rs:355-366 | the input loop keeps identities, body shapes and the invariant that only players are grounded; it only sets velocities, so no body moves or turns |
| RuntimeLogic.SyncedMirrorsBodies | apps/desktop/src-tauri/src/commands.rs:369-372 | after the copy, each entity with a body has its body's position and angle; other entities are unchanged; only position and rotation change; a second copy changes nothing |
| RuntimeLogic.FrameDelta | apps/desktop/src-tauri/src/commands.rs:347 | the step is the elapsed time in seconds, clamped to at most 0.1 |
| RuntimeLogic.FrameKeepsInvariants | apps/desktop/src-tauri/src/commands.rs:354-373 | a whole frame keeps: the grounding invariant; entity identities; the world's bodies (labels, sizes, kinds; static bodies keep their position and angle); and leaves every entity with a body at its body's position |
| GameRuntime.Runtime.constructor | apps/desktop/src-tauri/src/commands.rs:269-281 | a new runtime is not playing, has an empty key map and lastTime 0, and holds the loaded scene |
| GameRuntime.Runtime.LoadEntities | apps/desktop/src-tauri/src/commands.rs:288-319 | after clearing, the entities, world and registry are exactly the loaded ones; the object invariant holds; keys and play state are untouched |
| GameRuntime.Runtime.OnCollision | apps/desktop/src-tauri/src/commands.rs:321-337 | the listener's loop over pairs leaves the entities as `Contacts` of the old ones; world, registry and keys are unchanged; the invariant is kept |
| GameRuntime.Runtime.SteerPlayers | apps/desktop/src-tauri/src/commands.rs:355-367 | the in-place input loop leaves entities and world as `ControlAll` of the old state |
| GameRuntime.Runtime.CopyBodiesBack | apps/desktop/src-tauri/src/commands.rs:369-372 | the in-place copy loop leaves the entities as `Synced` of the old ones; the world and registry are unchanged |
| GameRuntime.Runtime.Update | apps/desktop/src-tauri/src/commands.rs:354-373 | `update(dt)` leaves the state as `Frame` of the old state: input, engine step with both listeners, copy back; it keeps the invariant, the registry and the keys |
| GameRuntime.Runtime.Loop | apps/desktop/src-tauri/src/commands.rs:344-352 | while paused it changes nothing at all; while playing it advances one frame by the clamped elapsed time and takes `now` as the new anchor |
| GameRuntime.Runtime.Start | apps/desktop/src-tauri/src/commands.rs:340 | start plays, re-anchors the timing at the start time, and runs a first frame measured from that anchor, so paused time is never simulated |
| GameRuntime.Runtime.Pause | apps/desktop/src-tauri/src/commands.rs:341 | pause stops playing and leaves entities, world, registry, keys and timing exactly as they were |
| GameRuntime.Runtime.Reset | apps/desktop/src-tauri/src/commands.rs:342 | reset rebuilds exactly the loaded scene, whatever ran since, and keeps the play state, keys and timing |
| GameRuntime.Runtime.KeyDown | apps/desktop/src-tauri/src/commands.rs:284 | afterwards the key code reads as pressed, and every other code reads as before |
| GameRuntime.Runtime.KeyUp | apps/desktop/src-tauri/src/commands.rs:285 | afterwards the key code reads as released, and every other code reads as before |
| DirectoryListing.Lower | apps/desktop/src-tauri/src/commands.rs:55 | lower-casing keeps the length and lower-cases each character |
| DirectoryListing.CompareStringsFlip | apps/desktop/src-tauri/src/commands.rs:55 | string comparison is antisymmetric, and gives Equal exactly on equal strings |
| DirectoryListing.CompareStringsTransitive | apps/desktop/src-tauri/src/commands.rs:55 | string comparison is transitive |
| DirectoryListing.CompareIsTotalPreorder | apps/desktop/src-tauri/src/commands.rs:54-62 | the comparator is total and transitive, and Less one way is Greater the other, as `sort_by` requires |
| DirectoryListing.InsertAt | apps/desktop/src-tauri/src/commands.rs:54-62 | one insertion step extends the sorted prefix by one entry, permutes the array and leaves the rest alone |
| DirectoryListing.SortListing | apps/desktop/src-tauri/src/commands.rs:54-62 | the sorted listing is a permutation of the entries, ordered by the comparator: every directory comes before every file, and entries of one kind are in lower-cased name order |
| FileWatcher.Emission | apps/desktop/src-tauri/src/file_watcher.rs:53-74 | an event is emitted iff it is a Modify or Create event with a first path that is not hidden, a backup (`~`), a `.tmp` file or a directory; the payload is that path's text |
| FileWatcher.HandleEvents | apps/desktop/src-tauri/src/file_watcher.rs:51-76 | the receive loop emits exactly the payloads `Emissions` gives for the events, in order |
| FileWatcher.EmittedPathsAreVisible | apps/desktop/src-tauri/src/file_watcher.rs:53-74 | every emitted payload is the first path of some Modify or Create event, and that path is not filtered out |
| FileWatcher.HiddenNeverEmitted | apps/desktop/src-tauri/src/file_watcher.rs:65 | a path containing `/.` (a hidden file or a file in a hidden directory) is never emitted |
| FileWatcher.OnlyFirstPathCounts | apps/desktop/src-tauri/src/file_watcher.rs:61 | paths after the first never change what an event emits |
| FileWatcher.FileWatcherState.constructor | apps/desktop/src-tauri/src/file_watcher.rs:12-19 | the default state has no watcher and no watched path |
| FileWatcher.FileWatcherState.StopWatching | apps/desktop/src-tauri/src/file_watcher.rs:83-87 | afterwards there is no watcher; with none to begin with, nothing changes; the watched path is not touched |

## Left out

- `render()` (commands.rs:375-387) and the page's button wiring (commands.rs:390-403) draw on a canvas and touch the DOM. Neither has logic beyond the state modelled here.
- `requestAnimationFrame` scheduling and `performance.now()` are left out. The time of each frame and the start anchor are parameters of `Loop` and `Start`. The model shows one frame per call.
- Matter.js internals are left out: the solver, the velocity integration, gravity and contact detection. The engine step is a parameter that may do anything a step can do: move, rotate and change the velocity of non-static bodies, and report contact pairs. Gravity is passed to it but has no modelled effect.
- Scene.Resolve: only well-formed specifications are modelled. The types make every entity's `components` and the configuration's gravity present. In the JavaScript, an entity without `components` throws a TypeError at commands.rs:296, and so does a configuration without gravity at commands.rs:277.
- GameRuntime.Runtime.LoadEntities: because malformed specifications are not modelled, neither is the half-built scene such a TypeError leaves. Lines 289-291 have already cleared the entities, the registry and the world, and the earlier entities have already been pushed, so a failed `reset()` leaves only part of the scene.
- Real numbers stand for JavaScript doubles. Rounding, NaN and infinities are not modelled.
- Scene.EffectiveTint: the tint is a natural number. Negative, fractional or non-numeric tints are not modelled, because they only arise from a malformed specification.
- DirectoryListing.Lower: Rust's `to_lowercase` is modelled for ASCII letters only, because Unicode case mapping tables are not available here.
- DirectoryListing.SortListing: stability is not stated, because Rust's `sort_by` is stable but the model sorts by insertion and proves only sortedness and permutation.
- The file and project commands in commands.rs are left out. These are reading and writing files, listing a directory's entries, loading and saving specifications, and the HTML template around the runtime. All of them are filesystem I/O or string templating. The game specification JSON is embedded in the page as it is.
- `start_watching`'s notify set-up, channel and thread are left out. The receive loop is modelled as `HandleEvents` over the sequence of events the channel delivers. `Path::is_dir` is a filesystem query, observed as a field of each path.
- Dropping a watcher (which stops OS notifications) is not modelled. The watcher handle is an opaque value.
- ai_client.rs, watcher_commands.rs, lib.rs and main.rs are not part of this model. They are HTTP calls to an AI service, Tauri command glue and application start-up.
- Entities are a sequence of values. The JavaScript mutates entity objects in place. Nothing else holds references to them, so values behave the same.
- Only one `collisionStart` and one `collisionEnd` listener are modelled, although each `loadEntities` call registers another pair on the same engine. `RuntimeLogic.ContactsIdempotent` shows that the extra copies change nothing.
- RuntimeLogic.ControlAllWorld: the exact velocities of players' bodies are stated only when entity names are unique and distinct names have distinct bodies. With duplicate names, several players can steer one body, and the last one processed wins; that case is computed by `ControlAll` but not characterised.
