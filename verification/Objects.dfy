/** What the mutator sees of a chunk: objects whose pointers are names, not addresses.

    `names[k]` is the name of object k.  Names survive a collection while addresses and
    object numbers change, so two chunks hold isomorphic objects when the objects with
    equal names look equal. */
module Objects {
  import opened Words
  import opened Chunks

  datatype Field = Raw(word: nat) | Ref(name: nat)

  /** Contents of an object after its two header words. */
  datatype Object = Object(header: nat, fields: seq<Field>)

  ghost function Named(c: Chunk, names: seq<nat>, v: nat): Field
    requires |c.starts| == |names| + 1
  {
    if c.IsObject(v) then Ref(names[c.IndexOf(v)]) else Raw(v)
  }

  /** What a word means as word i of an object: a traced field by what it points to, another
      word by its bits, of which only the bytes that belong to a string count. */
  ghost function Meaning(c: Chunk, names: seq<nat>, header: nat, i: nat, word: nat): Field
    requires |c.starts| == |names| + 1
  {
    if FirstField(header) <= i then Named(c, names, word)
    else if i == ObjWords(header) - 1 then Raw(LowBytes(header, word))
    else Raw(word)
  }

  ghost function FieldAt(c: Chunk, names: seq<nat>, k: nat, i: nat): Field
    requires c.Parsed() && |c.starts| == |names| + 1 && k < c.Count()
    requires c.Block(k) && 2 <= i < ObjWords(c.words[c.starts[k]])
  {
    Meaning(c, names, c.words[c.starts[k]], i, c.words[c.starts[k] + i])
  }

  ghost function ObjectAt(c: Chunk, names: seq<nat>, k: nat): Object
    requires c.Parsed() && |c.starts| == |names| + 1 && k < c.Count()
  {
    assert c.Block(k);
    var header := c.words[c.starts[k]];
    Object(header, seq(ObjWords(header) - 2, i requires 0 <= i < ObjWords(header) - 2 => FieldAt(c, names, k, i + 2)))
  }

  /** The chunk holds objects of `ideal`, each under its name. */
  ghost predicate Depicts(c: Chunk, names: seq<nat>, ideal: seq<Object>) {
    && c.Parsed() && |c.starts| == |names| + 1
    && (forall i, j :: 0 <= i < j < |names| ==> names[i] != names[j])
    && (forall k :: 0 <= k < |names| ==> names[k] < |ideal|)
    && forall k :: 0 <= k < |names| ==> ObjectAt(c, names, k) == ideal[names[k]]
  }
}
