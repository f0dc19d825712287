/** The record layer: records whose bookkeeping fields are updated in place,
    indices whose hashmaps are written by `Add`, and the one registry of
    indices that every record type shares. The storage client is not
    modelled: what it answers (the hash of a new post, the posts of a query,
    the content read back) is passed in, and what is sent to it is returned. */
module Core {
  import opened Errors
  import opened RevisionChain
  import opened IndexMap

  /** What create_post is asked to store: the record's content, its type
      name as post type, and the canonical hash it amends (absent on the first post). */
  datatype PostRequest = PostRequest(content: Fields, postType: string, ref: Option<string>)

  /** What fetch_records is asked for: the posts of one record type with these hashes. */
  datatype RecordsRequest = RecordsRequest(typeName: string, hashes: set<string>)

  /** The keys argument of query: a single key or a list of keys. */
  datatype Keys = One(key: string) | Many(keys: seq<string>) {
    function AsList(): (ks: seq<string>)
      ensures One? ==> |ks| == 1 && ks[0] == key
      ensures Many? ==> ks == keys
    {
      match this
      case One(k) => [k]
      case Many(ks) => ks
    }
  }

  /** The index name query uses when the caller names none. */
  const DefaultIndex := "item_hash"

  /** post_or_amend_object: ask the client to store the record's content with
      its canonical hash as ref, then record the hash `posted` it answered. */
  method PostOrAmendObject(obj: Record, posted: string) returns (req: PostRequest)
    modifies obj
    ensures req == PostRequest(old(obj.fields), obj.typeName, old(obj.itemHash))
    ensures obj.State() == AfterPost(old(obj.State()), posted)
    ensures obj.fields == old(obj.fields)
  {
    req := PostRequest(obj.fields, obj.typeName, obj.itemHash);
    if obj.itemHash.None? {
      obj.itemHash := Some(posted);
    }
    obj.revisionHashes := obj.revisionHashes + [posted];
    obj.currentRevision := Some(|obj.revisionHashes| - 1);
  }

  /** The indexed field of each index, in order. */
  function IndexedFields(indices: seq<Index>): (names: seq<string>)
    ensures |names| == |indices|
    ensures forall j :: 0 <= j < |indices| ==> names[j] == indices[j].indexOn
  {
    if indices == [] then [] else [indices[0].indexOn] + IndexedFields(indices[1..])
  }

  /** The position of the index registered under `key`, if any. */
  function Position(indices: seq<Index>, key: string): (p: Option<nat>)
    ensures p.Some? ==> p.value < |indices| && indices[p.value].Key() == key
    ensures p.Some? ==> forall j :: 0 <= j < p.value ==> indices[j].Key() != key
    ensures p.None? ==> forall j :: 0 <= j < |indices| ==> indices[j].Key() != key
  {
    if indices == [] then None
    else if indices[0].Key() == key then Some(0)
    else match Position(indices[1..], key)
      case None => None
      case Some(p) => Some(p + 1)
  }

  /** The hashmap of each index, in order. */
  function Hashmaps(indices: seq<Index>): (maps: seq<map<string, string>>)
    reads indices
    ensures |maps| == |indices|
    ensures forall j :: 0 <= j < |indices| ==> maps[j] == indices[j].hashmap
  {
    if indices == [] then [] else [indices[0].hashmap] + Hashmaps(indices[1..])
  }

  class Record {
    const typeName: string
    var fields: Fields
    var forgotten: bool
    var itemHash: Option<string>
    var currentRevision: Option<int>
    var revisionHashes: seq<string>

    /** The four bookkeeping fields as one value. */
    function State(): Bookkeeping
      reads this
    {
      Bookkeeping(itemHash, revisionHashes, currentRevision, forgotten)
    }

    /** A record built from its content, with every bookkeeping field at its default. */
    constructor (typeName: string, fields: Fields)
      ensures this.typeName == typeName && this.fields == fields
      ensures State() == Unposted
    {
      this.typeName := typeName;
      this.fields := fields;
      forgotten := false;
      itemHash := None;
      currentRevision := None;
      revisionHashes := [];
    }

    /** update_revision_hashes: the chain becomes the canonical hash followed
        by the revisions the network lists for it (`resp`, newest first). */
    method UpdateRevisionHashes(resp: seq<Post>)
      requires itemHash.Some?
      modifies this`revisionHashes
      ensures revisionHashes == [itemHash.value] + OldestFirst(resp)
    {
      revisionHashes := [itemHash.value] + OldestFirst(resp);
    }

    /** fetch_revision: move to the revision selected by number or by hash,
        then overwrite the fields with the content read back for the
        canonical hash; `fetched` is that content, one entry per record the
        network returned. The bookkeeping moves only as Locate decides; an
        empty read-back raises IndexError after the revision has moved. */
    method FetchRevision(revNo: Option<int>, revHash: Option<string>, fetched: seq<Fields>) returns (r: Outcome)
      modifies this`currentRevision, this`fields
      ensures match Locate(old(revisionHashes), old(currentRevision), revNo, revHash)
        case Stay => r == Pass && currentRevision == old(currentRevision) && fields == old(fields)
        case Reject(e) => r == Fail(e) && currentRevision == old(currentRevision) && fields == old(fields)
        case MoveTo(p) =>
          && currentRevision == Some(p)
          && (fetched == [] ==> r == Fail(IndexError) && fields == old(fields))
          && (fetched != [] ==> r == Pass && fields == old(fields) + fetched[0])
    {
      if revNo.Some? {
        var n := revNo.value;
        if n < 0 {
          n := |revisionHashes| + n;
        }
        if currentRevision == Some(n) {
          return Pass;
        } else if n > |revisionHashes| {
          return Fail(IndexError);
        } else {
          currentRevision := Some(n);
        }
      } else if revHash.Some? {
        var i := IndexOf(revisionHashes, revHash.value);
        if i.None? {
          return Fail(IndexError);
        }
        currentRevision := Some(i.value);
      } else {
        return Fail(ValueError);
      }
      // the content is always read back for the canonical hash
      if |fetched| == 0 {
        return Fail(IndexError);
      }
      fields := fields + fetched[0];
      r := Pass;
    }

    /** upsert: post or amend, then, when this was the record's first post
        (current revision 0), add the record to every registered index in
        registration order, stopping at the first AttributeError. */
    method Upsert(reg: Registry, posted: string) returns (req: PostRequest, r: Outcome)
      requires reg.Valid()
      modifies this, reg.entries
      ensures req == PostRequest(fields, typeName, old(itemHash))
      ensures State() == AfterPost(old(State()), posted) && fields == old(fields)
      ensures reg.entries == old(reg.entries)
      ensures currentRevision == Some(0) ==>
        (Hashmaps(reg.entries), r) == AddToAll(old(Hashmaps(reg.entries)), IndexedFields(reg.entries), fields, itemHash.value)
      ensures currentRevision != Some(0) ==> r == Pass && Hashmaps(reg.entries) == old(Hashmaps(reg.entries))
    {
      req := PostOrAmendObject(this, posted);
      r := Pass;
      if currentRevision == Some(0) {
        reg.ValidUnaliased();
        r := reg.AddToEach(this);
      }
    }

    /** forget: once only. The first call hands the canonical hash and every
        revision hash to the network and marks the record forgotten; a
        second call raises AlreadyForgotten. */
    method Forget() returns (r: Result<seq<Option<string>>>)
      modifies this`forgotten
      ensures forgotten
      ensures old(forgotten) ==> r == Err(AlreadyForgotten)
      ensures !old(forgotten) ==> r == Ok(ForgetHashes(old(State())))
    {
      if !forgotten {
        r := Ok(ForgetHashes(State()));
        forgotten := true;
      } else {
        r := Err(AlreadyForgotten);
      }
    }

    /** create: a new record from its content, posted once. */
    static method Create(typeName: string, fields: Fields, reg: Registry, posted: string)
      returns (rec: Record, req: PostRequest, r: Outcome)
      requires reg.Valid()
      modifies reg.entries
      ensures fresh(rec) && rec.typeName == typeName && rec.fields == fields
      ensures rec.State() == Bookkeeping(Some(posted), [posted], Some(0), false)
      ensures req == PostRequest(fields, typeName, None)
      ensures reg.entries == old(reg.entries)
      ensures (Hashmaps(reg.entries), r) == AddToAll(old(Hashmaps(reg.entries)), IndexedFields(reg.entries), fields, posted)
    {
      rec := new Record(typeName, fields);
      req, r := rec.Upsert(reg, posted);
    }

    /** from_post: rebuild a record from a raw post. `refResp` is what the
        network lists for the ref (read only for a post with a ref, and then
        replaced), `chainResp` what it lists for the canonical hash when the
        chain is refreshed. */
    static method FromPost(typeName: string, post: Post, refResp: seq<Post>, chainResp: seq<Post>)
      returns (r: Result<Record>)
      ensures match Reconstruct(post, OldestFirst(chainResp))
        case Err(e) => r == Err(e)
        case Ok(b) =>
          && r.Ok? && fresh(r.value)
          && r.value.State() == b && r.value.fields == post.content && r.value.typeName == typeName
    {
      var obj := new Record(typeName, post.content);
      if post.ref.None? {
        obj.itemHash := Some(post.itemHash);
        obj.revisionHashes := obj.revisionHashes + [post.itemHash];
      } else {
        obj.itemHash := post.ref;
        obj.revisionHashes := OldestFirst(refResp);
      }
      obj.itemHash := if post.ref.None? then Some(post.itemHash) else post.ref;
      obj.UpdateRevisionHashes(chainResp);
      ghost var canonical := obj.itemHash.value;
      assert obj.revisionHashes == [canonical] + OldestFirst(chainResp);
      var i := IndexOf(obj.revisionHashes, post.itemHash);
      if i.None? {
        return Err(ValueError);
      }
      obj.currentRevision := Some(i.value);
      assert obj.State() == Bookkeeping(Some(canonical), [canonical] + OldestFirst(chainResp), i, false);
      r := Ok(obj);
    }
  }

  /** A secondary index: maps the value of one field of a record type to the
      canonical hash of the record that last wrote it. */
  class Index {
    const typeName: string
    const indexOn: string
    var hashmap: map<string, string>

    /** The name the registry knows this index by: "Type.field". */
    function Key(): (k: string)
      ensures |k| == |typeName| + 1 + |indexOn|
      ensures k[..|typeName|] == typeName && k[|typeName|] == '.' && k[|typeName| + 1..] == indexOn
    {
      typeName + "." + indexOn
    }

    /** A new, empty index, registered under its key. */
    constructor (reg: Registry, typeName: string, indexOn: string)
      requires reg.Valid()
      modifies reg
      ensures this.typeName == typeName && this.indexOn == indexOn && hashmap == map[]
      ensures reg.Valid()
      ensures match Position(old(reg.entries), Key())
        case None => reg.entries == old(reg.entries) + [this]
        case Some(p) => reg.entries == old(reg.entries)[p := this]
    {
      this.typeName := typeName;
      this.indexOn := indexOn;
      hashmap := map[];
      new;
      reg.AddIndex(this);
    }

    /** add: the record's value of the indexed field now maps to its
        canonical hash, replacing any earlier writer of that value. */
    method Add(rec: Record) returns (r: Outcome)
      requires rec.itemHash.Some?
      modifies this`hashmap
      ensures indexOn in rec.fields ==> r == Pass && hashmap == old(hashmap)[rec.fields[indexOn] := rec.itemHash.value]
      ensures indexOn !in rec.fields ==> r == Fail(AttributeError(indexOn)) && hashmap == old(hashmap)
    {
      if indexOn !in rec.fields {
        return Fail(AttributeError(indexOn));
      }
      hashmap := hashmap[rec.fields[indexOn] := rec.itemHash.value];
      r := Pass;
    }

    /** fetch: the records to read, each hash once: every indexed record when
        no keys are given, else the records the keys map to; an absent key
        raises KeyError. */
    function Fetch(keys: Option<seq<string>>): (r: Result<RecordsRequest>)
      reads this
      ensures r.Ok? ==> r.value.typeName == typeName
      ensures keys.None? ==> r == Ok(RecordsRequest(typeName, hashmap.Values))
      ensures keys.Some? ==> (r.Ok? <==> forall k :: k in keys.value ==> k in hashmap)
      ensures keys.Some? && r.Ok? ==> r.value.hashes == set k | k in keys.value && k in hashmap :: hashmap[k]
      ensures r.Err? ==> keys.Some? && r.error == KeyError(keys.value[FirstAbsent(keys.value, hashmap)])
    {
      match keys
      case None => Ok(RecordsRequest(typeName, hashmap.Values))
      case Some(ks) =>
        match Lookup(hashmap, ks)
        case Err(e) => Err(e)
        case Ok(hashes) => Ok(RecordsRequest(typeName, hashes))
    }
  }

  /** The registry of indices that all record types share. It stands for a
      dictionary keyed by each index's own "Type.field" name: the indices in
      the order their keys were first registered, no two with the same key. */
  class Registry {
    var entries: seq<Index>

    ghost predicate Valid()
      reads this
    {
      forall i, j :: 0 <= i < j < |entries| ==> entries[i].Key() != entries[j].Key()
    }

    constructor ()
      ensures Valid() && entries == []
    {
      entries := [];
    }

    /** add_index: register `idx` under its key; an index with a key already
        registered replaces the earlier one in its place. */
    method AddIndex(idx: Index)
      requires Valid()
      modifies this
      ensures Valid()
      ensures match Position(old(entries), idx.Key())
        case None => entries == old(entries) + [idx]
        case Some(p) => entries == old(entries)[p := idx]
    {
      match Position(entries, idx.Key())
      case None =>
        entries := entries + [idx];
      case Some(p) =>
        entries := entries[p := idx];
    }

    /** No index object is registered twice. */
    ghost predicate Unaliased()
      reads this
    {
      forall i, j :: 0 <= i < |entries| && 0 <= j < |entries| && i != j ==> entries[i] != entries[j]
    }

    /** Indices with distinct keys are distinct objects. */
    lemma ValidUnaliased()
      requires Valid()
      ensures Unaliased()
    {
      forall i, j | 0 <= i < |entries| && 0 <= j < |entries| && i != j
        ensures entries[i] != entries[j]
      {
        if i < j {
          assert entries[i].Key() != entries[j].Key();
        } else {
          assert entries[j].Key() != entries[i].Key();
        }
      }
    }

    /** The comprehension in upsert: `add` the record to every registered
        index in registration order; the first AttributeError ends it. */
    method AddToEach(rec: Record) returns (r: Outcome)
      requires Unaliased() && rec.itemHash.Some?
      modifies entries
      ensures (Hashmaps(entries), r) == AddToAll(old(Hashmaps(entries)), IndexedFields(entries), rec.fields, rec.itemHash.value)
    {
      var indices := entries;
      var names := IndexedFields(indices);
      ghost var before := Hashmaps(indices);
      ghost var stop := FirstAbsent(names, rec.fields);
      r := Pass;
      var i := 0;
      while i < |indices|
        invariant 0 <= i <= stop && r == Pass
        invariant forall j :: 0 <= j < i ==>
          indices[j].hashmap == before[j][rec.fields[names[j]] := rec.itemHash.value]
        invariant forall j :: i <= j < |indices| ==> indices[j].hashmap == before[j]
      {
        r := indices[i].Add(rec);
        if r.Fail? {
          break;
        }
        i := i + 1;
      }
      assert i == stop;
      ghost var res := AddToAll(before, names, rec.fields, rec.itemHash.value);
      ghost var after := Hashmaps(indices);
      assert |after| == |res.0|;
      assert forall j :: 0 <= j < |indices| ==> after[j] == res.0[j];
      assert after == res.0;
      assert r == res.1;
    }

    /** query: look the index up by name (ValueError when no index has that
        name, whatever record type asks) and fetch the keys from it. */
    function Query(keys: Keys, index: string): (r: Result<RecordsRequest>)
      reads this, entries
      ensures Position(entries, index).None? ==> r == Err(ValueError)
      ensures Position(entries, index).Some? ==> r == entries[Position(entries, index).value].Fetch(Some(keys.AsList()))
    {
      match Position(entries, index)
      case None => Err(ValueError)
      case Some(p) => entries[p].Fetch(Some(keys.AsList()))
    }
  }
}
