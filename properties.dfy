/** Properties that relate several operations of the record layer. */
module Properties {
  import opened Errors
  import opened RevisionChain
  import opened IndexMap
  import opened Core

  /** Posting grows the chain by exactly the posted hashes, keeps the
      canonical hash once it is set, and leaves the current revision at the tail. */
  lemma {:induction false} PostAllExtends(b: Bookkeeping, posted: seq<string>)
    requires Persisted(b) || b == Unposted
    ensures PostAll(b, posted).revisionHashes == b.revisionHashes + posted
    ensures b.itemHash.Some? ==> PostAll(b, posted).itemHash == b.itemHash
    ensures PostAll(b, posted).forgotten == b.forgotten
    ensures posted != [] ==>
      && Persisted(PostAll(b, posted))
      && PostAll(b, posted).currentRevision == Some(|b.revisionHashes| + |posted| - 1)
    decreases |posted|
  {
    if posted != [] {
      var a := AfterPost(b, posted[0]);
      PostAllExtends(a, posted[1..]);
      assert a.revisionHashes == b.revisionHashes + [posted[0]];
      assert b.revisionHashes + [posted[0]] + posted[1..] == b.revisionHashes + posted;
    }
  }

  /** create followed by N upserts: the chain holds the N + 1 posted hashes,
      the first of them is the canonical hash, and the current revision is N. */
  lemma CreateThenUpserts(created: string, upserted: seq<string>)
    ensures PostAll(Unposted, [created] + upserted)
         == Bookkeeping(Some(created), [created] + upserted, Some(|upserted|), false)
  {
    PostAllExtends(Unposted, [created] + upserted);
  }

  /** fetch_revision(rev_no=-1) resolves to the tail of the chain, whatever its length. */
  lemma LastRevisionIsTail(chain: seq<string>, current: Option<int>)
    requires chain != []
    ensures Locate(chain, current, Some(-1), None) == Stay ==> current == Some(|chain| - 1)
    ensures Locate(chain, current, Some(-1), None) != Stay ==>
      Locate(chain, current, Some(-1), None) == MoveTo(|chain| - 1)
  {
  }

  /** As written, fetch_revision accepts rev_no equal to the chain length and
      moves the current revision one past the tail. */
  lemma FetchPastEndLeavesChain(b: Bookkeeping)
    requires Persisted(b)
    ensures Locate(b.revisionHashes, b.currentRevision, Some(|b.revisionHashes|), None) == MoveTo(|b.revisionHashes|)
    ensures !Persisted(b.(currentRevision := Some(|b.revisionHashes|)))
  {
  }

  /** As written, a revision number below minus the chain length stays
      negative after normalization and becomes the current revision. */
  lemma FetchBelowStartLeavesChain(b: Bookkeeping)
    requires Persisted(b)
    ensures Locate(b.revisionHashes, b.currentRevision, Some(-|b.revisionHashes| - 1), None) == MoveTo(-1)
    ensures !Persisted(b.(currentRevision := Some(-1)))
  {
  }

  /** With Python's own list-index range check, resolving a revision keeps the chain
      invariant of a persisted record. */
  lemma LocateInRangeKeepsPersisted(b: Bookkeeping, revNo: Option<int>, revHash: Option<string>)
    requires Persisted(b)
    ensures LocateInRange(b.revisionHashes, b.currentRevision, revNo, revHash).MoveTo? ==>
      Persisted(b.(currentRevision := Some(LocateInRange(b.revisionHashes, b.currentRevision, revNo, revHash).pos)))
  {
  }

  /** The list-index range check differs from the written one only on revision
      numbers that do not name a position of the chain, and refuses those. */
  lemma LocateInRangeAgrees(chain: seq<string>, current: Option<int>, revNo: Option<int>, revHash: Option<string>)
    ensures LocateInRange(chain, current, revNo, revHash) != Locate(chain, current, revNo, revHash) <==>
      && revNo.Some?
      && !(0 <= Normalized(|chain|, revNo.value) < |chain|)
      && Locate(chain, current, revNo, revHash) != Reject(IndexError)
    ensures revNo.Some? && !(0 <= Normalized(|chain|, revNo.value) < |chain|) ==>
      LocateInRange(chain, current, revNo, revHash) == Reject(IndexError)
  {
  }

  /** forget_object lists the canonical hash twice: once as item_hash and
      once as the first revision; the hashes it lists are exactly the chain. */
  lemma ForgetListsCanonicalTwice(b: Bookkeeping)
    requires Persisted(b)
    ensures ForgetHashes(b)[0] == ForgetHashes(b)[1] == b.itemHash
    ensures forall h :: Some(h) in ForgetHashes(b) <==> h in b.revisionHashes
  {
    var hs := ForgetHashes(b);
    forall h
      ensures Some(h) in hs <==> h in b.revisionHashes
    {
      if Some(h) in hs {
        var i :| 0 <= i < |hs| && hs[i] == Some(h);
        if i == 0 {
          assert b.revisionHashes[0] == h;
        } else {
          assert b.revisionHashes[i - 1] == h;
        }
      }
      if h in b.revisionHashes {
        var i :| 0 <= i < |b.revisionHashes| && b.revisionHashes[i] == h;
        assert hs[i + 1] == Some(h);
      }
    }
  }

  /** Rebuilding a record from the post at revision p of its own chain, with
      the network listing the later revisions, gives back the record's
      bookkeeping with p as the current revision (p being the first position
      of that hash). */
  lemma ReconstructRoundTrip(b: Bookkeeping, p: nat, content: Fields)
    requires Persisted(b) && !b.forgotten
    requires p < |b.revisionHashes| && b.revisionHashes[p] !in b.revisionHashes[..p]
    ensures var post := Post(b.revisionHashes[p], if p == 0 then None else b.itemHash, content);
      Reconstruct(post, b.revisionHashes[1..]) == Ok(b.(currentRevision := Some(p)))
  {
    var chain := b.revisionHashes;
    assert chain == [chain[0]] + chain[1..];
    IndexOfFirst(chain, chain[p], p);
  }

  /** list.index finds the first occurrence: a position holding x with no
      earlier x is the one IndexOf returns. */
  lemma {:induction false} IndexOfFirst(s: seq<string>, x: string, p: nat)
    requires p < |s| && s[p] == x && x !in s[..p]
    ensures IndexOf(s, x) == Some(p)
  {
    if p > 0 {
      assert s[0] == s[..p][0];
      assert s[1..][..p - 1] == s[1..p];
      assert s[1..p] == s[..p][1..];
      IndexOfFirst(s[1..], x, p - 1);
    }
  }

  /** The hashes an index lookup resolves to do not depend on the order of
      the keys or on repeated keys. */
  lemma LookupIgnoresOrder(m: map<string, string>, keys: seq<string>, keys': seq<string>)
    requires forall k :: k in keys <==> k in keys'
    ensures Lookup(m, keys).Ok? <==> Lookup(m, keys').Ok?
    ensures Lookup(m, keys).Ok? ==> Lookup(m, keys) == Lookup(m, keys')
  {
    if Lookup(m, keys).Ok? {
      assert Lookup(m, keys).value == Lookup(m, keys').value;
    }
  }

  /** Every registry key has the shape "Type.field", so the index name that
      query uses by default, "item_hash", is never registered. */
  lemma DefaultIndexNeverRegistered(reg: Registry, keys: Keys)
    ensures reg.Query(keys, DefaultIndex) == Err(ValueError)
  {
    forall j | 0 <= j < |reg.entries|
      ensures reg.entries[j].Key() != DefaultIndex
    {
      KeyIsNotDefault(reg.entries[j]);
    }
  }

  /** A "Type.field" key holds a '.', which "item_hash" does not. */
  lemma KeyIsNotDefault(idx: Index)
    ensures idx.Key() != DefaultIndex
  {
    var k := idx.Key();
    assert k[|idx.typeName|] == '.';
    assert forall i :: 0 <= i < |DefaultIndex| ==> DefaultIndex[i] != '.';
  }

  /** add_index then query: the name of an index just registered resolves to
      that index, whether it was new or replaced an earlier one. */
  lemma RegisteredIndexIsFound(entries: seq<Index>, idx: Index)
    ensures Position(entries, idx.Key()).None? ==> Position(entries + [idx], idx.Key()) == Some(|entries|)
    ensures Position(entries, idx.Key()).Some? ==>
      var p := Position(entries, idx.Key()).value;
      Position(entries[p := idx], idx.Key()) == Some(p)
  {
    var key := idx.Key();
    match Position(entries, key)
    case None =>
      var after := entries + [idx];
      assert after[|entries|] == idx;
      assert forall j :: 0 <= j < |entries| ==> after[j] == entries[j];
    case Some(p) =>
      var after := entries[p := idx];
      assert after[p] == idx;
      assert forall j :: 0 <= j < p ==> after[j] == entries[j];
  }
}
