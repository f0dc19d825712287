/** Clients that drive the record layer through typical end-to-end uses;
    what each one ends with follows from the contracts of the operations
    alone. */
module Scenarios {
  import opened Errors
  import opened RevisionChain
  import opened Core

  /** Create A{value: 1} as h0, amend it as h1, then move to revision 0,
      from there to the last revision by -1, back to 0, and to h1 by hash.
      A revision number equal to the
      chain length is accepted and leaves the current revision past the tail. */
  method RevisionWalk(h0: string, h1: string, readBack: Fields)
    returns (created: Bookkeeping, amended: Bookkeeping, atZero: Option<int>, atH1: Option<int>,
             atLast: Option<int>, pastEnd: Option<int>)
    requires h0 != h1
    ensures created == Bookkeeping(Some(h0), [h0], Some(0), false)
    ensures amended == Bookkeeping(Some(h0), [h0, h1], Some(1), false)
    ensures atZero == Some(0) && atH1 == Some(1) && atLast == Some(1)
    ensures pastEnd == Some(2)
  {
    var reg := new Registry();
    var a, _, _ := Record.Create("A", map["value" := "1"], reg, h0);
    created := a.State();
    var _, _ := a.Upsert(reg, h1);
    amended := a.State();
    var o := a.FetchRevision(Some(0), None, [readBack]);
    atZero := a.currentRevision;
    o := a.FetchRevision(Some(-1), None, [readBack]);
    atLast := a.currentRevision;
    o := a.FetchRevision(Some(0), None, [readBack]);
    o := a.FetchRevision(None, Some(h1), [readBack]);
    atH1 := a.currentRevision;
    o := a.FetchRevision(Some(2), None, [readBack]);
    pastEnd := a.currentRevision;
  }

  /** fetch_revision without a selector raises ValueError, and with a hash
      outside the chain raises IndexError; neither moves the record. */
  method RevisionErrors(h0: string, other: string) returns (neither: Outcome, unknown: Outcome, after: Bookkeeping)
    requires h0 != other
    ensures neither == Fail(ValueError) && unknown == Fail(IndexError)
    ensures after == Bookkeeping(Some(h0), [h0], Some(0), false)
  {
    var reg := new Registry();
    var a, _, _ := Record.Create("A", map["value" := "1"], reg, h0);
    neither := a.FetchRevision(None, None, []);
    unknown := a.FetchRevision(None, Some(other), []);
    after := a.State();
  }

  /** A fresh registry holding only Index(A, "value"), still empty. */
  method RegistryWithIndexA() returns (reg: Registry, idx: Index)
    ensures fresh(reg) && fresh(idx)
    ensures reg.entries == [idx] && idx.typeName == "A" && idx.indexOn == "value" && idx.hashmap == map[]
  {
    reg := new Registry();
    idx := new Index(reg, "A", "value");
  }

  /** Register Index(A, "value"), then create A{value: "x"} as h1 and
      A{value: "y"} as h2: the index maps each value to its record. */
  method IndexTwo(h1: string, h2: string) returns (reg: Registry, idx: Index)
    ensures reg.entries == [idx] && idx.typeName == "A" && idx.indexOn == "value"
    ensures idx.hashmap == map["x" := h1, "y" := h2]
  {
    reg, idx := RegistryWithIndexA();
    assert reg.Valid() && IndexedFields(reg.entries) == ["value"];
    var a1, _, _ := Record.Create("A", map["value" := "x"], reg, h1);
    assert idx.hashmap == Hashmaps(reg.entries)[0];
    var a2, _, _ := Record.Create("A", map["value" := "y"], reg, h2);
    assert idx.hashmap == Hashmaps(reg.entries)[0];
  }

  /** With that registry, querying "A.value" for both keys finds both
      records; an unknown key raises KeyError; the bare field name and the
      default name raise ValueError. */
  lemma QueryTwo(reg: Registry, idx: Index, h1: string, h2: string)
    requires reg.entries == [idx] && idx.typeName == "A" && idx.indexOn == "value"
    requires idx.hashmap == map["x" := h1, "y" := h2]
    ensures reg.Query(Many(["x", "y"]), "A.value") == Ok(RecordsRequest("A", {h1, h2}))
    ensures reg.Query(Many(["z"]), "A.value") == Err(KeyError("z"))
    ensures reg.Query(Many(["x"]), "value") == Err(ValueError)
    ensures reg.Query(One("x"), DefaultIndex) == Err(ValueError)
  {
    assert idx.Key() == "A.value";
    var ks := ["x", "y"];
    assert forall k :: k in ks <==> k == "x" || k == "y";
    var both := reg.Query(Many(ks), "A.value");
    assert both == idx.Fetch(Some(ks));
    assert both.Ok?;
    assert both.value.hashes == {h1, h2} by {
      assert h1 == idx.hashmap[ks[0]] && h2 == idx.hashmap[ks[1]];
    }
  }

  /** The registry is shared by every record type: creating a B record adds
      it to an index built for A. */
  method CrossType(h1: string) returns (afterCreate: map<string, string>)
    ensures afterCreate == map["x" := h1]
  {
    var reg, idx := RegistryWithIndexA();
    assert reg.Valid() && IndexedFields(reg.entries) == ["value"];
    var b, _, _ := Record.Create("B", map["value" := "x"], reg, h1);
    assert idx.hashmap == Hashmaps(reg.entries)[0];
    afterCreate := idx.hashmap;
  }

  /** Only the first post indexes a record: amending it with a new value of
      the indexed field leaves the index as it was. */
  method AmendNotIndexed(h1: string, h2: string) returns (afterUpsert: map<string, string>)
    ensures afterUpsert == map["x" := h1]
  {
    var reg, idx := RegistryWithIndexA();
    assert reg.Valid() && IndexedFields(reg.entries) == ["value"];
    var a, _, _ := Record.Create("A", map["value" := "x"], reg, h1);
    assert idx.hashmap == Hashmaps(reg.entries)[0] == map["x" := h1];
    a.fields := map["value" := "w"];
    var _, _ := a.Upsert(reg, h2);
    assert idx.hashmap == Hashmaps(reg.entries)[0];
    afterUpsert := idx.hashmap;
  }

  /** A second record with the same value of the indexed field replaces the
      first one in the index. */
  method LastWriterWins(h1: string, h3: string) returns (afterSecond: map<string, string>)
    ensures afterSecond == map["x" := h3]
  {
    var reg, idx := RegistryWithIndexA();
    assert reg.Valid() && IndexedFields(reg.entries) == ["value"];
    var a, _, _ := Record.Create("A", map["value" := "x"], reg, h1);
    assert idx.hashmap == Hashmaps(reg.entries)[0] == map["x" := h1];
    var c, _, _ := Record.Create("A", map["value" := "x"], reg, h3);
    assert idx.hashmap == Hashmaps(reg.entries)[0];
    afterSecond := idx.hashmap;
  }

  /** A record without the indexed field makes create raise AttributeError,
      after it was posted. */
  method MissingIndexedField(h: string) returns (r: Outcome, posted: Bookkeeping)
    ensures r == Fail(AttributeError("value"))
    ensures posted == Bookkeeping(Some(h), [h], Some(0), false)
  {
    var reg, idx := RegistryWithIndexA();
    assert reg.Valid() && IndexedFields(reg.entries) == ["value"];
    var a, _, o := Record.Create("A", map["other" := "x"], reg, h);
    r := o;
    posted := a.State();
  }

  /** Forgetting a created record hands its hash to the network twice; a
      second forget raises AlreadyForgotten and the record stays forgotten. */
  method ForgetTwice(h0: string) returns (first: Result<seq<Option<string>>>, second: Result<seq<Option<string>>>, stillForgotten: bool)
    ensures first == Ok([Some(h0), Some(h0)])
    ensures second == Err(AlreadyForgotten)
    ensures stillForgotten
  {
    var reg := new Registry();
    var a, _, _ := Record.Create("A", map[], reg, h0);
    first := a.Forget();
    ghost var hs := ForgetHashes(Bookkeeping(Some(h0), [h0], Some(0), false));
    assert hs == [hs[0], hs[1]];
    second := a.Forget();
    stillForgotten := a.forgotten;
  }
}
