/** The revision chain of a record, as values: the four bookkeeping fields,
    how posting grows them, how a revision number or hash is resolved to a
    position, how a chain is rebuilt from a raw post, and which hashes are
    handed to the network when a record is forgotten. The class Core.Record
    keeps these fields in place and its methods are specified by these
    functions. */
module RevisionChain {
  import opened Errors

  /** The user-defined fields of a record (its content), by field name. */
  type Fields = map<string, string>

  /** A raw post as the storage network returns it: its own hash, the hash
      of the canonical post it amends (absent for an original post), and its content. */
  datatype Post = Post(itemHash: string, ref: Option<string>, content: Fields)

  /** The bookkeeping fields of a record. `revisionHashes` is oldest first. */
  datatype Bookkeeping = Bookkeeping(
    itemHash: Option<string>,
    revisionHashes: seq<string>,
    currentRevision: Option<int>,
    forgotten: bool)

  /** The defaults of a record that has never been posted. */
  const Unposted := Bookkeeping(None, [], None, false)

  /** The chain invariant of a persisted record: the canonical hash is the
      first revision, and the current revision is a position in the chain. */
  predicate Persisted(b: Bookkeeping) {
    && b.itemHash.Some?
    && |b.revisionHashes| > 0
    && b.revisionHashes[0] == b.itemHash.value
    && b.currentRevision.Some?
    && 0 <= b.currentRevision.value < |b.revisionHashes|
  }

  /** The bookkeeping after the storage client accepted a post and answered
      with hash `posted`: the canonical hash is assigned on the first post
      only, the new hash is appended and becomes the current revision. */
  function AfterPost(b: Bookkeeping, posted: string): (a: Bookkeeping)
    ensures |a.revisionHashes| == |b.revisionHashes| + 1
    ensures a.revisionHashes[..|b.revisionHashes|] == b.revisionHashes
    ensures a.revisionHashes[|b.revisionHashes|] == posted
    ensures a.currentRevision == Some(|a.revisionHashes| - 1)
    ensures b.itemHash.Some? ==> a.itemHash == b.itemHash
    ensures b.itemHash.None? ==> a.itemHash == Some(posted)
    ensures a.forgotten == b.forgotten
    ensures Persisted(b) || b == Unposted ==> Persisted(a)
  {
    Bookkeeping(
      if b.itemHash.None? then Some(posted) else b.itemHash,
      b.revisionHashes + [posted],
      Some(|b.revisionHashes|),
      b.forgotten)
  }

  /** The bookkeeping after posting each of `posted` in turn. */
  function PostAll(b: Bookkeeping, posted: seq<string>): Bookkeeping
    decreases |posted|
  {
    if posted == [] then b else PostAll(AfterPost(b, posted[0]), posted[1..])
  }

  /** The first position of `x` in `s`, as Python's list.index finds it;
      None where list.index raises. */
  function IndexOf(s: seq<string>, x: string): (r: Option<nat>)
    ensures r.None? <==> x !in s
    ensures r.Some? ==> r.value < |s| && s[r.value] == x && x !in s[..r.value]
  {
    if s == [] then None
    else if s[0] == x then Some(0)
    else match IndexOf(s[1..], x)
      case None => None
      case Some(i) =>
        assert s[1..][..i] == s[1..i + 1];
        Some(i + 1)
  }

  /** The hashes of a get_posts response, which lists the newest post first,
      reversed so that the oldest revision comes first. */
  function OldestFirst(resp: seq<Post>): (hashes: seq<string>)
    ensures |hashes| == |resp|
    ensures forall i :: 0 <= i < |resp| ==> hashes[i] == resp[|resp| - 1 - i].itemHash
  {
    if resp == [] then [] else OldestFirst(resp[1..]) + [resp[0].itemHash]
  }

  /** A negative revision number counts from the end of the chain, once:
      -1 names the last position and -len the first; a number below -len
      stays negative; a non-negative number is kept as it is. */
  function Normalized(len: nat, revNo: int): (n: int)
    ensures revNo >= 0 ==> n == revNo
    ensures revNo < 0 && 0 <= len + revNo ==> 0 <= n < len && n == len + revNo
    ensures len + revNo < 0 ==> n < 0
  {
    if revNo < 0 then len + revNo else revNo
  }

  /** What fetch_revision decides before it reads any content. */
  datatype Located = Stay | MoveTo(pos: int) | Reject(error: Error)

  /** fetch_revision's decision, as written: a revision number is normalized
      once, a number equal to the current revision changes nothing, only a
      number strictly greater than the chain length is refused; a revision
      hash resolves to its first position; neither selector is a ValueError. */
  function Locate(chain: seq<string>, current: Option<int>, revNo: Option<int>, revHash: Option<string>): (l: Located)
    ensures l == Reject(ValueError) <==> revNo.None? && revHash.None?
    ensures revNo.Some? ==>
      var n := Normalized(|chain|, revNo.value);
      && (l == Stay <==> current == Some(n))
      && (l == Reject(IndexError) <==> current != Some(n) && n > |chain|)
      && (current != Some(n) && n <= |chain| ==> l == MoveTo(n))
      && (l.MoveTo? ==> l.pos == n)
    ensures revNo.None? && revHash.Some? ==>
      && (l.MoveTo? <==> revHash.value in chain)
      && (!l.MoveTo? ==> l == Reject(IndexError))
      && (l.MoveTo? ==> 0 <= l.pos < |chain| && chain[l.pos] == revHash.value && revHash.value !in chain[..l.pos])
  {
    if revNo.Some? then
      var n := Normalized(|chain|, revNo.value);
      if current == Some(n) then Stay
      else if n > |chain| then Reject(IndexError)
      else MoveTo(n)
    else if revHash.Some? then
      match IndexOf(chain, revHash.value)
      case None => Reject(IndexError)
      case Some(i) => MoveTo(i)
    else
      Reject(ValueError)
  }

  /** fetch_revision's decision with Python's own list-index range: a
      revision number is valid exactly when -len <= rev_no < len, so one whose
      normalized value is not a position of the chain is refused. */
  function LocateInRange(chain: seq<string>, current: Option<int>, revNo: Option<int>, revHash: Option<string>): (l: Located)
    ensures l.MoveTo? ==> 0 <= l.pos < |chain|
    ensures l == Stay ==> revNo.Some? && current == Some(Normalized(|chain|, revNo.value)) && 0 <= current.value < |chain|
    ensures revNo.Some? && l.MoveTo? ==> l.pos == Normalized(|chain|, revNo.value)
    ensures revNo.Some? ==>
      var n := Normalized(|chain|, revNo.value);
      && (0 <= n < |chain| ==> l == (if current == Some(n) then Stay else MoveTo(n)))
      && (!(0 <= n < |chain|) ==> l == Reject(IndexError))
    ensures revNo.None? ==> l == Locate(chain, current, revNo, revHash)
    ensures l == Reject(ValueError) <==> revNo.None? && revHash.None?
  {
    if revNo.Some? then
      var n := Normalized(|chain|, revNo.value);
      if n < 0 || n >= |chain| then Reject(IndexError)
      else if current == Some(n) then Stay
      else MoveTo(n)
    else
      Locate(chain, current, revNo, revHash)
  }

  /** The bookkeeping of a record rebuilt from a raw post: the canonical hash
      is the post's own hash when it has no ref and the ref otherwise; the
      chain is the canonical hash followed by the revisions found for it,
      oldest first; the current revision is the post's own position. */
  function Reconstruct(post: Post, revisions: seq<string>): (r: Result<Bookkeeping>)
    ensures post.ref.None? ==> r.Ok? && r.value.itemHash == Some(post.itemHash) && r.value.currentRevision == Some(0)
    ensures post.ref.Some? ==> (r.Ok? <==> post.itemHash in [post.ref.value] + revisions)
    ensures r.Err? ==> r.error == ValueError
    ensures r.Ok? ==>
      && Persisted(r.value)
      && !r.value.forgotten
      && r.value.revisionHashes == [r.value.itemHash.value] + revisions
      && (post.ref.Some? ==> r.value.itemHash == post.ref)
      && r.value.revisionHashes[r.value.currentRevision.value] == post.itemHash
      && post.itemHash !in r.value.revisionHashes[..r.value.currentRevision.value]
  {
    var canonical := if post.ref.None? then post.itemHash else post.ref.value;
    var chain := [canonical] + revisions;
    match IndexOf(chain, post.itemHash)
    case None => Err(ValueError)
    case Some(i) => Ok(Bookkeeping(Some(canonical), chain, Some(i), false))
  }

  /** The hashes forget_object hands to the storage client: the canonical
      hash, then every revision hash. */
  function ForgetHashes(b: Bookkeeping): (hs: seq<Option<string>>)
    ensures |hs| == |b.revisionHashes| + 1
    ensures hs[0] == b.itemHash
    ensures forall i :: 0 <= i < |b.revisionHashes| ==> hs[i + 1] == Some(b.revisionHashes[i])
  {
    [b.itemHash] + Lifted(b.revisionHashes)
  }

  function Lifted(s: seq<string>): (r: seq<Option<string>>)
    ensures |r| == |s| && forall i :: 0 <= i < |s| ==> r[i] == Some(s[i])
  {
    if s == [] then [] else [Some(s[0])] + Lifted(s[1..])
  }
}
