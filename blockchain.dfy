/** The Blockchain object: the block array, the name index and the counter
    as fields that its methods update in place. Each method is proved
    against the function of module `Ledgers` or `Format` that specifies it. */
module Chain {
  import opened JsText
  import opened JsValue
  import opened Blocks
  import opened Ledgers
  import opened Format

  class Blockchain {
    var blockchain: seq<Block>
    var blockchainReference: map<string, nat>
    var currentIndex: nat
    /** Only switches console logging, which this model leaves out. */
    const debugMode: bool

    /** The three fields as a value. */
    function State(): Ledger
      reads this
    {
      Ledger(blockchain, blockchainReference, currentIndex)
    }

    /** The counter is the number of blocks and every name points at one. */
    ghost predicate Consistent()
      reads this
    {
      Valid(State())
    }

    constructor(debugMode: bool)
      ensures State() == Empty && this.debugMode == debugMode
    {
      blockchain := [];
      blockchainReference := map[];
      currentIndex := 0;
      this.debugMode := debugMode;
    }

    /** `insert_block(data, name)`, `Date.now()` giving `now`. */
    method InsertBlock(lib: Lib, data: Json, name: string, now: nat) returns (ok: bool)
      requires Consistent()
      modifies this
      ensures Consistent() && ok
      ensures State() == Ledgers.InsertBlock(lib, old(State()), data, name, now)
    {
      ghost var before := State();
      var link := if |blockchain| > 0 then blockchain[currentIndex - 1].hash else GenesisPrevHash;
      var createdBlock := NewBlock(lib, Int(currentIndex), JString(lib.stringify(data)), Millis(now), link);
      assert createdBlock == NextBlock(lib, before, data, now);
      if name != "__proto__" {
        blockchainReference := blockchainReference[name := currentIndex];
      }
      blockchain := blockchain + [createdBlock];
      currentIndex := currentIndex + 1;
      assert State() == Ledgers.Insert(before, createdBlock, name);
      ok := true;
    }

    /** `insert(block, name)`: the block is appended as given. */
    method Insert(block: Block, name: string) returns (ok: bool)
      modifies this
      ensures ok
      ensures State() == Ledgers.Insert(old(State()), block, name)
      ensures old(Consistent()) ==> Consistent()
    {
      if name != "__proto__" {
        blockchainReference := blockchainReference[name := currentIndex];
      }
      blockchain := blockchain + [block];
      currentIndex := currentIndex + 1;
      ok := true;
    }

    /** `search(name)`. */
    method Search(name: string) returns (r: Option<Block>)
      ensures r == Ledgers.Search(State(), name)
    {
      if name in blockchainReference && blockchainReference[name] < |blockchain| {
        r := Some(blockchain[blockchainReference[name]]);
      } else {
        r := None;
      }
    }

    /** `extract(name, point)`. */
    method Extract(lib: Lib, name: string, point: string) returns (r: Extracted)
      ensures r == Ledgers.Extract(lib, State(), name, point)
    {
      var found := Search(name);
      if found.None? {
        return Threw(TypeError);
      }
      var b := found.value;
      if !IsBlockField(point) {
        return Undefined;
      }
      if point == "data" {
        var text := ToString(b.data);
        if text.Err? {
          return Threw(text.error);
        }
        var parsed := lib.parse(text.value);
        if parsed.None? {
          return Threw(SyntaxError);
        }
        return Got(DataValue(parsed.value));
      }
      if point == "index" {
        r := Got(IndexValue(b.index));
      } else if point == "timestamp" {
        r := Got(StampValue(b.timestamp));
      } else if point == "prevHash" {
        r := Got(TextValue(b.prevHash));
      } else {
        r := Got(TextValue(b.hash));
      }
    }

    /** `verify()`: walks the chain from the second block and stops at the
        first block whose `prevHash` is not its predecessor's `hash`. */
    method Verify() returns (ok: bool)
      ensures ok <==> Linked(blockchain)
    {
      var i := 1;
      while i < |blockchain|
        invariant 1 <= i
        invariant forall j :: 1 <= j < i && j < |blockchain| ==> blockchain[j].prevHash == blockchain[j - 1].hash
        decreases |blockchain| - i
      {
        if blockchain[i].prevHash != blockchain[i - 1].hash {
          return false;
        }
        i := i + 1;
      }
      return true;
    }

    /** `return_blocks()`. */
    method ReturnBlocks() returns (blocks: seq<Block>)
      ensures blocks == blockchain
    {
      blocks := blockchain;
    }

    /** `return_reference()`. */
    method ReturnReference() returns (reference: map<string, nat>)
      ensures reference == blockchainReference
    {
      reference := blockchainReference;
    }

    /** `export(path)` without the file system: the text it writes, on a
        runtime that reports `platform` and `version`. */
    method Export(lib: Lib, platform: string, version: string) returns (text: string)
      ensures text == ExportText(lib, blockchain, platform, version)
    {
      var blockInfo: seq<string> := [];
      for k := 0 to |blockchain|
        invariant |blockInfo| == k
        invariant forall j :: 0 <= j < k ==> blockInfo[j] == ExportLine(lib, blockchain[j])
      {
        blockInfo := blockInfo + [ExportLine(lib, blockchain[k])];
      }
      assert blockInfo == ExportLines(lib, blockchain);
      text := Header(platform, version, |blockchain|) + CRLF + Trim(Join(blockInfo, CRLF));
    }

    /** One iteration of `import`'s loop: the line is destructured, its
        payload decoded twice and its name chosen, then the block is added
        by `insert_block` or built and added by `insert`. An exception
        leaves the object as it was and is returned. */
    method ImportPiece(lib: Lib, piece: string, recalculateHash: bool, now: nat) returns (thrown: Option<JsError>)
      requires Consistent()
      modifies this
      ensures Consistent()
      ensures thrown.Some? ==> ImportLine(lib, old(State()), ParseLine(piece), recalculateHash, now) == Err(thrown.value)
                               && State() == old(State())
      ensures thrown.None? ==> ImportLine(lib, old(State()), ParseLine(piece), recalculateHash, now) == Ok(State())
    {
      ImportLineCases(lib, State(), ParseLine(piece), recalculateHash, now);
      var fields := ParseLine(piece);
      var payload := DecodeData(lib, fields);
      if payload.Err? {
        return Some(payload.error);
      }
      var name := RefName(fields, payload.value);
      if name.Err? {
        return Some(name.error);
      }
      if recalculateHash {
        var _ := InsertBlock(lib, payload.value, name.value, now);
      } else {
        var link := if |blockchain| > 0 then blockchain[currentIndex - 1].hash else GenesisPrevHash;
        var block := NewBlock(lib, ParseInt(fields.index), payload.value, StampOf(fields.timestamp), link);
        var _ := Insert(block, name.value);
      }
      return None;
    }

    /** The loop of `import` over the pieces after the first seven;
        `clock(j)` is what `Date.now()` gives while the piece at position
        `j` is read. An exception ends the loop and leaves the blocks read
        so far in place. */
    method ImportLines(lib: Lib, fileElem: seq<string>, recalculateHash: bool, clock: nat -> nat)
      returns (outcome: ImportOutcome)
      requires Consistent()
      modifies this
      ensures Consistent()
      ensures (outcome, State()) == ImportAll(lib, old(State()), fileElem, recalculateHash, clock, 0)
      ensures outcome.Failed? ==>
                && outcome.line < |fileElem|
                && ImportLine(lib, State(), ParseLine(fileElem[outcome.line]), recalculateHash, clock(outcome.line))
                   == Err(outcome.error)
    {
      ghost var start := State();
      var i := 0;
      while i < |fileElem|
        invariant 0 <= i <= |fileElem| && Consistent()
        invariant ImportAll(lib, start, fileElem, recalculateHash, clock, 0)
               == ImportAll(lib, State(), fileElem[i..], recalculateHash, clock, i)
      {
        ImportAllAdvance(lib, start, State(), fileElem, recalculateHash, clock, i);
        var thrown := ImportPiece(lib, fileElem[i], recalculateHash, clock(i));
        if thrown.Some? {
          return Failed(i, thrown.value);
        }
        i := i + 1;
      }
      assert fileElem[i..] == [];
      return Imported;
    }

    /** `import(file_path, recalculateHash)` reading `text`. */
    method Import(lib: Lib, text: string, recalculateHash: bool, clock: nat -> nat) returns (outcome: ImportOutcome)
      requires Consistent()
      modifies this
      ensures Consistent()
      ensures (outcome, State()) == ImportAll(lib, old(State()), ImportPieces(text), recalculateHash, clock, 0)
      ensures outcome.Failed? ==>
                && outcome.line < |ImportPieces(text)|
                && ImportLine(lib, State(), ParseLine(ImportPieces(text)[outcome.line]), recalculateHash, clock(outcome.line))
                   == Err(outcome.error)
    {
      var fileElem := ImportPieces(text);
      outcome := ImportLines(lib, fileElem, recalculateHash, clock);
    }
  }
}
