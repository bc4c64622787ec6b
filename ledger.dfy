/** The ledger's state as a value, and the operations on it as functions:
    the specification that the methods of `Chain.Blockchain` are proved
    against, and the lemmas about it. */
module Ledgers {
  import opened JsText
  import opened JsValue
  import opened Blocks

  /** The three fields of a Blockchain: the block array, the name index
      `blockchainReference` and the counter `currentIndex`. */
  datatype Ledger = Ledger(blocks: seq<Block>, reference: map<string, nat>, currentIndex: nat)

  /** A freshly constructed Blockchain. */
  const Empty: Ledger := Ledger([], map[], 0)

  /** The invariant every Blockchain keeps: the counter is the number of
      blocks and every name points at a live block. */
  predicate Valid(l: Ledger) {
    && l.currentIndex == |l.blocks|
    && forall n :: n in l.reference ==> l.reference[n] < |l.blocks|
  }

  /** The name index after `blockchainReference[name] = pos` on a plain
      object: the new position replaces any earlier one, except that an
      assignment to `__proto__` sets the prototype and, given a number,
      does nothing. */
  function Register(reference: map<string, nat>, name: string, pos: nat): (r: map<string, nat>)
    ensures name != "__proto__" ==> name in r && r[name] == pos
    ensures name == "__proto__" ==> r == reference
    ensures forall n :: n in reference && n != name ==> n in r && r[n] == reference[n]
    ensures forall n :: n in r ==> n in reference || n == name
  {
    if name == "__proto__" then reference else reference[name := pos]
  }

  /** What `verify` checks: every block's `prevHash` is the previous
      block's `hash`. */
  predicate Linked(blocks: seq<Block>) {
    forall i :: 1 <= i < |blocks| ==> blocks[i].prevHash == blocks[i - 1].hash
  }

  /** The `prevHash` the ledger gives the next block it builds: the tail's
      digest, or the sentinel on an empty chain. */
  function TailHash(blocks: seq<Block>): string {
    if |blocks| > 0 then blocks[|blocks| - 1].hash else GenesisPrevHash
  }

  /** A block appended with the tail's digest as its `prevHash` keeps
      the chain verifying exactly when it verified before. */
  lemma LinkedExtend(blocks: seq<Block>, longer: seq<Block>)
    requires |longer| == |blocks| + 1 && longer[..|blocks|] == blocks
    requires longer[|blocks|].prevHash == TailHash(blocks)
    ensures Linked(longer) <==> Linked(blocks)
  {
    assert forall i :: 0 <= i < |blocks| ==> longer[i] == blocks[i];
  }

  /** `insert(block, name)`: the caller's block is appended as it is, with no
      check of its index or its `prevHash`, and the name is registered at
      the old counter. */
  function Insert(l: Ledger, b: Block, name: string): (r: Ledger)
    ensures |r.blocks| == |l.blocks| + 1 && r.blocks[..|l.blocks|] == l.blocks && r.blocks[|l.blocks|] == b
    ensures r.currentIndex == l.currentIndex + 1
    ensures r.reference == Register(l.reference, name, l.currentIndex)
    ensures Valid(l) ==> Valid(r)
  {
    Ledger(l.blocks + [b], Register(l.reference, name, l.currentIndex), l.currentIndex + 1)
  }

  /** The link both `insert_block` and `import` give a new block: the
      digest of the block at `currentIndex - 1` on a non-empty chain, the
      sentinel otherwise. */
  function LinkHash(l: Ledger): (h: string)
    requires Valid(l)
    ensures h == TailHash(l.blocks)
  {
    if |l.blocks| > 0 then l.blocks[l.currentIndex - 1].hash else GenesisPrevHash
  }

  /** The block `insert_block(data, name)` builds at time `now`. */
  function NextBlock(lib: Lib, l: Ledger, data: Json, now: nat): (b: Block)
    requires Valid(l)
    ensures b.index == Int(|l.blocks|) && b.data == JString(lib.stringify(data)) && b.timestamp == Millis(now)
    ensures b.prevHash == TailHash(l.blocks) && Sealed(lib, b)
  {
    NewBlock(lib, Int(l.currentIndex), JString(lib.stringify(data)), Millis(now), LinkHash(l))
  }

  /** `insert_block(data, name)` at time `now`: a block built at position
      `currentIndex`, holding the payload's JSON text and linked to the
      tail, is appended and registered under `name`. */
  function InsertBlock(lib: Lib, l: Ledger, data: Json, name: string, now: nat): (r: Ledger)
    requires Valid(l)
    ensures Valid(r)
    ensures |r.blocks| == |l.blocks| + 1 && r.blocks[..|l.blocks|] == l.blocks
    ensures r.blocks[|l.blocks|] == NextBlock(lib, l, data, now)
    ensures r.reference == Register(l.reference, name, |l.blocks|)
    ensures Linked(r.blocks) <==> Linked(l.blocks)
  {
    var r := Insert(l, NextBlock(lib, l, data, now), name);
    LinkedExtend(l.blocks, r.blocks);
    r
  }

  /** `search(name)`: the block at the registered position; undefined
      (None) for a name that was never registered. */
  function Search(l: Ledger, name: string): (r: Option<Block>)
    ensures r.Some? <==> name in l.reference && l.reference[name] < |l.blocks|
    ensures r.Some? ==> r.value == l.blocks[l.reference[name]]
  {
    if name in l.reference && l.reference[name] < |l.blocks| then Some(l.blocks[l.reference[name]]) else None
  }

  /** A field value `extract` can return. */
  datatype FieldValue = IndexValue(index: Num) | DataValue(data: Json) | StampValue(timestamp: Stamp) | TextValue(text: string)

  /** The outcome of `extract`: an exception, undefined, or a value. */
  datatype Extracted = Threw(error: JsError) | Undefined | Got(value: FieldValue)

  /** The own properties of a Block object. */
  predicate IsBlockField(point: string) {
    point == "index" || point == "data" || point == "timestamp" || point == "prevHash" || point == "hash"
  }

  /** `extract(name, point)`: a TypeError when `search` gives undefined,
      undefined for a property the block does not own, the payload through
      `JSON.parse` for `data` (whose coercion to text may itself throw a
      TypeError), the stored value for the other fields. */
  function Extract(lib: Lib, l: Ledger, name: string, point: string): (r: Extracted)
    ensures r == Threw(TypeError)
            <==> Search(l, name).None? || (point == "data" && Unprintable(Search(l, name).value.data))
    ensures r == Undefined <==> Search(l, name).Some? && !IsBlockField(point)
    ensures r == Threw(SyntaxError) ==> point == "data"
    ensures r.Got? ==> Search(l, name).Some? && IsBlockField(point)
    ensures Search(l, name).Some? && point == "index" ==> r == Got(IndexValue(Search(l, name).value.index))
    ensures Search(l, name).Some? && point == "timestamp" ==> r == Got(StampValue(Search(l, name).value.timestamp))
    ensures Search(l, name).Some? && point == "prevHash" ==> r == Got(TextValue(Search(l, name).value.prevHash))
    ensures Search(l, name).Some? && point == "hash" ==> r == Got(TextValue(Search(l, name).value.hash))
    ensures Search(l, name).Some? && point == "data" && !Unprintable(Search(l, name).value.data)
            ==> var parsed := lib.parse(ToString(Search(l, name).value.data).value);
                && (r == Threw(SyntaxError) <==> parsed.None?)
                && (parsed.Some? ==> r == Got(DataValue(parsed.value)))
  {
    match Search(l, name)
    case None => Threw(TypeError)
    case Some(b) =>
      if point == "index" then Got(IndexValue(b.index))
      else if point == "data" then
        match ToString(b.data)
        case Err(e) => Threw(e)
        case Ok(text) =>
          match lib.parse(text)
          case None => Threw(SyntaxError)
          case Some(v) => Got(DataValue(v))
      else if point == "timestamp" then Got(StampValue(b.timestamp))
      else if point == "prevHash" then Got(TextValue(b.prevHash))
      else if point == "hash" then Got(TextValue(b.hash))
      else Undefined
  }

  /** Right after an insert under `name`, `search(name)` finds the new
      block, and every other name finds what it found before. */
  lemma SearchAfterInsert(l: Ledger, b: Block, name: string, other: string)
    requires Valid(l) && name != "__proto__" && other != name
    ensures Search(Insert(l, b, name), name) == Some(b)
    ensures Search(Insert(l, b, name), other) == Search(l, other)
  {
    var r := Insert(l, b, name);
    if other in l.reference {
      assert r.blocks[l.reference[other]] == l.blocks[l.reference[other]];
    }
  }

  /** A later insert under the same name replaces the earlier entry: the
      earlier block stays in the chain but the name no longer finds it. */
  lemma LastWriteWins(l: Ledger, b: Block, c: Block, name: string)
    requires Valid(l) && name != "__proto__"
    ensures Search(Insert(Insert(l, b, name), c, name), name) == Some(c)
    ensures Insert(Insert(l, b, name), c, name).blocks[|l.blocks|] == b
  {
  }

  /** Chains of zero or one block always pass `verify`. */
  lemma ShortChainsLinked(blocks: seq<Block>)
    requires |blocks| <= 1
    ensures Linked(blocks)
  {
  }

  /** One mismatched link makes `verify` fail. */
  lemma BrokenLinkDetected(blocks: seq<Block>, i: nat)
    requires 1 <= i < |blocks| && blocks[i].prevHash != blocks[i - 1].hash
    ensures !Linked(blocks)
  {
  }

  /** `verify` checks links only: a block whose payload is replaced without
      recomputing its digest still passes, although it is no longer sealed
      unless the digest happens to collide. */
  lemma TamperUndetected(lib: Lib, blocks: seq<Block>, i: nat, data: Json)
    requires i < |blocks| && Linked(blocks)
    ensures Linked(blocks[i := blocks[i].(data := data)])
    ensures Sealed(lib, blocks[i]) && ComputeHash(lib, blocks[i].(data := data)) != blocks[i].hash
            ==> !Sealed(lib, blocks[i := blocks[i].(data := data)][i])
  {
    var t := blocks[i := blocks[i].(data := data)];
    assert forall j :: 0 <= j < |t| ==> t[j].prevHash == blocks[j].prevHash && t[j].hash == blocks[j].hash;
  }

  /** The first block `insert_block` builds has the sentinel `prevHash`,
      index 0 and is findable under its name. */
  lemma GenesisInsertBlock(lib: Lib, data: Json, name: string, now: nat)
    requires name != "__proto__"
    ensures var r := InsertBlock(lib, Empty, data, name, now);
      && r.blocks[0].prevHash == GenesisPrevHash && r.blocks[0].index == Int(0)
      && Search(r, name) == Some(r.blocks[0])
  {
  }

  /** `extract(name, "data")` right after `insert_block(data, name)` gives
      `JSON.parse(JSON.stringify(data))`: the payload itself when the codec
      reads back what it writes, a SyntaxError when it cannot read it. */
  lemma ExtractInsertedData(lib: Lib, l: Ledger, data: Json, name: string, now: nat)
    requires Valid(l) && name != "__proto__"
    ensures var e := Extract(lib, InsertBlock(lib, l, data, name, now), name, "data");
      && (lib.parse(lib.stringify(data)).None? ==> e == Threw(SyntaxError))
      && (lib.parse(lib.stringify(data)).Some? ==> e == Got(DataValue(lib.parse(lib.stringify(data)).value)))
      && (RoundTrips(lib, data) ==> e == Got(DataValue(data)))
  {
    var r := InsertBlock(lib, l, data, name, now);
    assert Search(r, name) == Some(r.blocks[|l.blocks|]);
  }

  /** Two `insert_block` calls from an empty Blockchain: the chain
      verifies, the second name finds index 1, and the first block's
      `prevHash` is the sentinel. */
  lemma TwoBlockScenario(lib: Lib, zero: Json, one: Json, t0: nat, t1: nat)
    ensures var l1 := InsertBlock(lib, Empty, zero, "zero", t0);
      var l2 := InsertBlock(lib, l1, one, "one", t1);
      && Linked(l2.blocks)
      && Search(l2, "one").Some? && Search(l2, "one").value.index == Int(1)
      && Extract(lib, l2, "zero", "prevHash") == Got(TextValue(GenesisPrevHash))
  {
    var l1 := InsertBlock(lib, Empty, zero, "zero", t0);
    var l2 := InsertBlock(lib, l1, one, "one", t1);
    assert Search(l2, "zero") == Some(l2.blocks[0]);
    assert Search(l2, "one") == Some(l2.blocks[1]);
  }
}
