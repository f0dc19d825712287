/** The key-to-hash lookups of an index, as values. */
module IndexMap {
  import opened Errors

  /** The position of the first key of `keys` that `m` lacks, or |keys|
      when `m` has all of them. */
  function FirstAbsent<V>(keys: seq<string>, m: map<string, V>): (n: nat)
    ensures n <= |keys|
    ensures forall j :: 0 <= j < n ==> keys[j] in m
    ensures n < |keys| ==> keys[n] !in m
  {
    if keys == [] || keys[0] !in m then 0 else 1 + FirstAbsent(keys[1..], m)
  }

  /** The set of hashes the keys map to, looked up left to right: the first
      key absent from `m` raises KeyError, and repeated hashes are kept once. */
  function Lookup(m: map<string, string>, keys: seq<string>): (r: Result<set<string>>)
    ensures r.Ok? <==> forall k :: k in keys ==> k in m
    ensures r.Ok? ==> r.value == set k | k in keys && k in m :: m[k]
    ensures r.Err? ==> FirstAbsent(keys, m) < |keys| && r.error == KeyError(keys[FirstAbsent(keys, m)])
  {
    if keys == [] then Ok({})
    else if keys[0] !in m then Err(KeyError(keys[0]))
    else match Lookup(m, keys[1..])
      case Err(e) => Err(e)
      case Ok(s) =>
        assert forall k :: k in keys <==> k == keys[0] || k in keys[1..];
        Ok({m[keys[0]]} + s)
  }

  /** The hashmaps of a sequence of indices after the record with content
      `fields` and canonical hash `hash` is added to each in turn: an index
      maps the record's value of its field `names[j]` to `hash`; the first
      index whose field the content lacks raises AttributeError, which leaves
      that index and every later one as it was. */
  function AddToAll(maps: seq<map<string, string>>, names: seq<string>, fields: map<string, string>, hash: string)
    : (res: (seq<map<string, string>>, Outcome))
    requires |maps| == |names|
    ensures |res.0| == |maps|
    ensures var stop := FirstAbsent(names, fields);
      && res.1 == (if stop == |names| then Pass else Fail(AttributeError(names[stop])))
      && forall j :: 0 <= j < |maps| ==>
           res.0[j] == if j < stop then maps[j][fields[names[j]] := hash] else maps[j]
  {
    if maps == [] then (maps, Pass)
    else if names[0] !in fields then (maps, Fail(AttributeError(names[0])))
    else
      var rest := AddToAll(maps[1..], names[1..], fields, hash);
      ([maps[0][fields[names[0]] := hash]] + rest.0, rest.1)
  }
}
