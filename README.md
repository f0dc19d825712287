# Revision chains and indices of an Aleph record layer

This project models the core of a small object mapper for Aleph, a
decentralized storage network. A record looks mutable, but it is really a
chain of immutable posts. Each record keeps four bookkeeping fields:

- `item_hash`: the canonical hash, which is the hash of the first post;
- `revision_hashes`: every post of the record, oldest first;
- `current_revision`: a position in that list;
- `forgotten`: set once, when the record is deleted from the network.

The model covers how these fields move:

- posting (`post_or_amend_object`, `upsert`, `create`);
- moving between revisions (`fetch_revision`);
- forgetting (`forget`, `forget_object`);
- rebuilding a record from a raw post (`from_post`, `update_revision_hashes`, `fetch_revisions`).

It also covers the secondary indices. These are last-writer-wins maps from a
field's value to a canonical hash (`Index.add`, `Index.fetch`). They live in
one registry shared by every record type (`add_index`, `query`).

The storage client is not modelled. Whatever it answers is a parameter:

- the hash of a new post;
- the posts listed for a ref;
- the content read back.

Whatever is sent to it is a result:

- a `PostRequest` for `create_post`;
- a `RecordsRequest` for `fetch_records`;
- the hash list given to `forget`.

Files:

- `errors.dfy` (module `Errors`): the raised exceptions as an `Error`
  datatype, with `Option`, `Result` and `Outcome`.
- `revision_chain.dfy` (module `RevisionChain`): the bookkeeping as a value
  (`Bookkeeping`) and the functions that specify how it changes.
- `index_map.dfy` (module `IndexMap`): key lookups and the in-order addition
  of a record to a list of hashmaps, both as values.
- `core.dfy` (module `Core`): the classes `Record`, `Index` and `Registry`,
  whose methods update their fields in place. Each is proved against the
  functions above.
- `properties.dfy` (module `Properties`): lemmas that relate several operations.
- `scenarios.dfy` (module `Scenarios`): client code that drives the classes
  through end-to-end uses. What each one ends with follows from the contracts.

The registry is a Python dict keyed by `repr(index)`, that is `"Type.field"`.
The model holds it as a sequence of indices in first-registration order, no
two with the same key. Re-registering a key replaces the index in place,
just as assigning an existing dict key keeps its position. The registry is
passed to the operations that use it, instead of being a class attribute.

At one point the code does not follow Python's own list indexing, which
accepts an index `k` only when `-len <= k < len`. `fetch_revision`
(src/aars/core.py:60) refuses a revision number only when it exceeds the
chain length. So `rev_no == len(revision_hashes)` is accepted, and a
`rev_no` below `-len` stays negative after normalisation. Both then become
the current revision, outside the chain. The model follows the code:
`RevisionChain.Locate` and `Core.Record.FetchRevision`. The check by list
indexing is `RevisionChain.LocateInRange`. `Properties.LocateInRangeAgrees`
states exactly where the two differ. `Properties.FetchPastEndLeavesChain`
and `Properties.FetchBelowStartLeavesChain` show the inputs that break the
chain invariant as written.

## Model

| member | source | states |
|---|---|---|
| RevisionChain.AfterPost | src/aars/core.py:179-182 | a post appends the answered hash and makes it current; the canonical hash is set only when it was absent and kept afterwards; the chain invariant holds afterwards for a fresh or persisted record |
| RevisionChain.IndexOf | src/aars/core.py:66 | `list.index`: None exactly when the hash is absent, otherwise the position of its first occurrence |
| RevisionChain.OldestFirst | src/aars/core.py:233 | the hashes of the listed posts in reverse order, so that the oldest comes first |
| RevisionChain.Locate | src/aars/core.py:55-70 | as written: ValueError iff no selector is given; a number is normalised once; Stay iff it equals the current revision; IndexError iff it is not current and exceeds the chain length; a number that is not current and does not exceed the length moves there; a hash moves to its first position iff it is in the chain, otherwise IndexError |
| RevisionChain.LocateInRange | src/aars/core.py:55-70 | with list-index bounds: a number whose normalised value is a position of the chain gives Stay when it is current and moves there otherwise; any other number is IndexError; every move lands inside the chain; a hash or no selector is decided as Locate decides |
| RevisionChain.Normalized | src/aars/core.py:56-57 | a negative revision number counts from the end: -1 to -len name the positions from last to first; a number below -len stays negative; a non-negative number is kept |
| RevisionChain.Reconstruct | src/aars/core.py:96-107 | the canonical hash is the post's own hash without a ref and the ref otherwise; the chain is that hash followed by the listed revisions; the current revision is the post's first position; ValueError iff the post's hash is not in the chain; a result is persisted and not forgotten |
| RevisionChain.ForgetHashes | src/aars/core.py:196 | the canonical hash followed by every revision hash, in order |
| IndexMap.FirstAbsent | src/aars/core.py:156 | the position of the first key missing from the map: every earlier key is present |
| IndexMap.Lookup | src/aars/core.py:156 | succeeds iff every key is present, and then gives exactly the set of hashes the keys map to; otherwise KeyError names the first absent key |
| IndexMap.AddToAll | src/aars/core.py:80 | adding a record to each index in turn: every index before the first one whose field the content lacks maps that field's value to the hash; that one and every later one keep their map; the outcome is AttributeError naming the field, or Pass |
| Core.PostOrAmendObject | src/aars/core.py:165-182 | the post request carries the content, the type name and the old canonical hash as ref; the bookkeeping becomes AfterPost of the old bookkeeping; the content is unchanged |
| Core.Position | src/aars/core.py:123-129 | the registry lookup by name: finds the first index with that key, and None iff no index has it |
| Core.Keys.AsList | src/aars/core.py:121-122 | a single key becomes a one-element list; a list of keys is taken as it is |
| Core.DefaultIndex | src/aars/core.py:120 | the index name query uses when none is given, 'item_hash' |
| Core.Index.Key | src/aars/core.py:148-149 | the registry key "Type.field": the type name, a '.', then the indexed field |
| Core.Record.constructor | src/aars/core.py:30-33 | a new record holds its content and the default bookkeeping (no hash, empty chain, no current revision, not forgotten) |
| Core.Record.UpdateRevisionHashes | src/aars/core.py:46-47 | the chain becomes the canonical hash followed by the listed revisions, oldest first |
| Core.Record.FetchRevision | src/aars/core.py:49-75 | moves only as Locate decides; every refusal (Stay, ValueError, IndexError from the selector) leaves the current revision and the content unchanged; after a move, the content is overwritten by what is read back for the canonical hash, or, when nothing is read back, IndexError with the current revision already moved |
| Core.Record.Upsert | src/aars/core.py:77-81 | posts as PostOrAmendObject; at revision 0, each registered index is updated as AddToAll says, in registration order; at any later revision no index changes |
| Core.Record.Forget | src/aars/core.py:83-88 | once only: the first call marks the record forgotten and hands ForgetHashes of its bookkeeping to the network; a second call raises AlreadyForgotten and the record stays forgotten |
| Core.Record.Create | src/aars/core.py:90-93 | a fresh record posted once: chain [posted], canonical hash posted, revision 0, no ref in the request, and every registered index updated as AddToAll says |
| Core.Record.FromPost | src/aars/core.py:95-107 | a fresh record whose bookkeeping is exactly Reconstruct of the post and the revisions listed for the canonical hash, with the post's content; the same ValueError when the post's hash is not in that chain |
| Core.Index.constructor | src/aars/core.py:141-143 | a new empty index registered under "Type.field": appended when the key is new, replacing the earlier index in place otherwise; the registry keeps its keys distinct |
| Core.Index.Add | src/aars/core.py:160-162 | the record's value of the indexed field now maps to its canonical hash (last writer wins); AttributeError and no change when the record lacks the field |
| Core.Index.Fetch | src/aars/core.py:151-158 | without keys, the set of all indexed hashes; with keys, succeeds iff every key is present, and then gives the set of hashes they map to; otherwise KeyError for the first absent key |
| Core.Registry.constructor | src/aars/core.py:34 | the registry starts empty |
| Core.Registry.AddIndex | src/aars/core.py:127-129 | the index is stored under its key: appended when the key is new, replacing in place otherwise; keys stay distinct |
| Core.Registry.AddToEach | src/aars/core.py:80 | the comprehension in upsert: the hashmaps of the registered indices become AddToAll of their old hashmaps and indexed fields |
| Core.Registry.Query | src/aars/core.py:119-125 | ValueError when no registered index has the name; otherwise exactly what that index's fetch gives for the keys, a single key standing for a one-element list |
| Properties.PostAllExtends | src/aars/core.py:77-81 | posting a sequence of hashes appends exactly those hashes, keeps the canonical hash and leaves the current revision at the tail of a persisted chain |
| Properties.CreateThenUpserts | src/aars/core.py:77-93 | after create and N upserts, the chain has N + 1 hashes, the first is the canonical hash, and the current revision is N |
| Properties.LastRevisionIsTail | src/aars/core.py:56-63 | rev_no = -1 resolves to the last position of a non-empty chain |
| Properties.FetchPastEndLeavesChain | src/aars/core.py:60-63 | as written, rev_no equal to the chain length is accepted and leaves the current revision outside the chain |
| Properties.FetchBelowStartLeavesChain | src/aars/core.py:56-63 | as written, rev_no below minus the chain length stays negative and becomes the current revision |
| Properties.LocateInRangeKeepsPersisted | src/aars/core.py:55-66 | with the intended range check, every move keeps the chain invariant of a persisted record |
| Properties.LocateInRangeAgrees | src/aars/core.py:55-70 | the written and the intended check differ exactly on out-of-range revision numbers that the written one does not already refuse, and the intended one refuses all of those |
| Properties.ForgetListsCanonicalTwice | src/aars/core.py:196 | for a persisted record, the canonical hash is listed twice, and the listed hashes are exactly those of the chain |
| Properties.ReconstructRoundTrip | src/aars/core.py:96-107 | rebuilding from the post at position p of a record's own chain, with the later revisions listed, gives back the record's bookkeeping with p as the current revision |
| Properties.IndexOfFirst | src/aars/core.py:106 | a position that holds the hash with no earlier occurrence is the one `list.index` returns |
| Properties.LookupIgnoresOrder | src/aars/core.py:156 | the lookup result depends only on the set of keys, not on their order or repetition |
| Properties.DefaultIndexNeverRegistered | src/aars/core.py:120-129 | every registry key has the form "Type.field", so a query under the default name 'item_hash' always raises ValueError |
| Properties.KeyIsNotDefault | src/aars/core.py:149 | no "Type.field" key equals 'item_hash', since every key holds a '.' |
| Properties.RegisteredIndexIsFound | src/aars/core.py:123-129 | after add_index, looking up the index's key finds that index, whether it was new or replaced an earlier one |
| Scenarios.RevisionWalk | src/aars/core.py:49-93 | create h0 and amend to h1 give chains [h0] and [h0, h1]; rev_no 0 moves to 0, rev_no -1 from there moves to 1, rev_hash h1 moves to 1; rev_no 2 is accepted and moves past the tail |
| Scenarios.RevisionErrors | src/aars/core.py:64-70 | no selector raises ValueError, an unknown hash raises IndexError, and neither changes the record |
| Scenarios.RegistryWithIndexA | src/aars/core.py:141-143 | constructing Index(A, "value") in an empty registry registers exactly that empty index |
| Scenarios.IndexTwo | src/aars/core.py:77-81 | creating A{value: "x"} and A{value: "y"} maps "x" and "y" to their hashes |
| Scenarios.QueryTwo | src/aars/core.py:119-125 | a query of "A.value" for both keys finds both hashes; an unknown key raises KeyError; the bare field name and the default name raise ValueError |
| Scenarios.CrossType | src/aars/core.py:77-80 | creating a B record adds it to an index built for A |
| Scenarios.AmendNotIndexed | src/aars/core.py:79-80 | amending a record with a new value of the indexed field leaves the index unchanged |
| Scenarios.LastWriterWins | src/aars/core.py:162 | a second record with the same field value replaces the first in the index |
| Scenarios.MissingIndexedField | src/aars/core.py:162 | creating a record that lacks the indexed field raises AttributeError after the record was posted |
| Scenarios.ForgetTwice | src/aars/core.py:83-88 | the first forget lists the hash of a just-created record twice; the second raises AlreadyForgotten and the record stays forgotten |

## Left out

- Network I/O through the Aleph client (`create_post`, `get_posts`,
  `forget`). Their answers are parameters and their requests are results.
- `fetch_records`, `Record.fetch` and `Record.fetch_all` (src/aars/core.py:109-117, 200-216), including the `asyncio.gather` fan-out: they only turn listed posts into records through `from_post`.
- The fallback account and the channel defaulting (src/aars/core.py:13-14, 173-176, 192-195): configuration with no effect on the bookkeeping.
- `Index.__str__` (src/aars/core.py:145-146) and `Record.__repr__` (src/aars/core.py:36-37): message formatting.
- The pydantic machinery (`content`, `cls(**kwargs)`, `__dict__.update`). Content is a map from field name to a string value, and its merge is a map union.
- core/exceptions.py: only message formatting. Each raised exception is a constructor of `Errors.Error`. `AlreadyForgottenError` comes from src/aars/exceptions.py, which is not part of this model.
- Core.Record.FetchRevision: the content read back is a parameter, one entry per record the network returned. Nothing is promised about which revision it belongs to, because the code re-reads the canonical hash (src/aars/core.py:73).
- Core.Record.UpdateRevisionHashes: requires a canonical hash to be set. With none, the Python list would hold `None`, which a chain of strings cannot represent; the only caller sets it first.
- Core.Index.Add: requires the record to have a canonical hash, for the same reason; its only caller posts the record first.
- Core.Index.Add: `getattr` also finds the bookkeeping attributes and methods of a record; the model looks only at its content fields.
- Core.Index.Fetch: returns the request for `fetch_records` (type name and hash set), not the records themselves.
- Core.Registry.Query: returns the request for `fetch_records`, not the records.
- `Index` subclassing `Record` (src/aars/core.py:132): an index's own bookkeeping fields, and posting an index, are not modelled.
- The `isinstance` assertion in `Index.add` (src/aars/core.py:161) always holds for the typed model.
