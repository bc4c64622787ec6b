/** A block of the ledger: an immutable record of an index, a payload, a
    timestamp, the previous block's digest and its own digest. */
module Blocks {
  import opened JsText
  import opened JsValue

  /** The `timestamp` field: `Date.now()` milliseconds when the ledger
      builds the block, the text token read from a file on import, or
      undefined when an imported line has no such field. */
  datatype Stamp = Millis(ms: nat) | Token(text: string) | NoStamp

  /** `${timestamp}` in a template literal. */
  function RenderStamp(t: Stamp): string {
    match t
    case Millis(ms) => Decimal(ms)
    case Token(text) => text
    case NoStamp => "undefined"
  }

  datatype Block = Block(index: Num, data: Json, timestamp: Stamp, prevHash: string, hash: string)

  /** The previous-hash sentinel of a genesis block. */
  const GenesisPrevHash: string := "0"

  /** The string that `compute_hash` gives to `sha256`: the four fields
      joined by the letter `x`, the payload through `JSON.stringify`. */
  function HashInput(lib: Lib, index: Num, data: Json, timestamp: Stamp, prevHash: string): string {
    RenderNum(index) + "x" + lib.stringify(data) + "x" + RenderStamp(timestamp) + "x" + prevHash
  }

  /** `compute_hash`: the digest of a block's own first four fields. */
  function ComputeHash(lib: Lib, b: Block): string {
    lib.sha256(HashInput(lib, b.index, b.data, b.timestamp, b.prevHash))
  }

  /** The block's digest is the one its first four fields determine. */
  predicate Sealed(lib: Lib, b: Block) {
    b.hash == ComputeHash(lib, b)
  }

  /** `new Block(index, data, timestamp, prevHash)`: the four fields are
      copied, an index equal to 0 replaces `prevHash` by the sentinel, and
      the digest is computed last, from the fields as they then stand. */
  function NewBlock(lib: Lib, index: Num, data: Json, timestamp: Stamp, prevHash: string): (b: Block)
    ensures b.index == index && b.data == data && b.timestamp == timestamp
    ensures b.prevHash == if index == Int(0) then GenesisPrevHash else prevHash
    ensures Sealed(lib, b)
  {
    var linked := if index == Int(0) then GenesisPrevHash else prevHash;
    var unsealed := Block(index, data, timestamp, linked, "");
    unsealed.(hash := ComputeHash(lib, unsealed))
  }

  /** At index 0 the `prevHash` argument has no effect at all. */
  lemma GenesisIgnoresPrevHash(lib: Lib, data: Json, timestamp: Stamp, p: string, q: string)
    ensures NewBlock(lib, Int(0), data, timestamp, p) == NewBlock(lib, Int(0), data, timestamp, q)
    ensures NewBlock(lib, Int(0), data, timestamp, p).prevHash == GenesisPrevHash
  {
  }

  /** A block is determined by its four constructor arguments: two sealed
      blocks that agree on them agree on their digest too. */
  lemma SealedDeterminedByFields(lib: Lib, b: Block, c: Block)
    requires Sealed(lib, b) && Sealed(lib, c)
    requires b.index == c.index && b.data == c.data && b.timestamp == c.timestamp && b.prevHash == c.prevHash
    ensures b == c
  {
  }

  /** The digest covers the rendered timestamp only: a timestamp read
      back as the text it was written as gives the same hash input. */
  lemma StampTokenSameHashInput(lib: Lib, index: Num, data: Json, t: Stamp, prevHash: string)
    ensures HashInput(lib, index, data, Token(RenderStamp(t)), prevHash) == HashInput(lib, index, data, t, prevHash)
  {
  }
}
