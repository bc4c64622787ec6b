# A hash-linked ledger of named blocks

This project models the core of a small JavaScript blockchain library.

A **Block** records five things:
- an index;
- a payload;
- a timestamp;
- the digest of the previous block (`prevHash`);
- its own digest (`hash`).

`hash` is `sha256` of the text `index x JSON(data) x timestamp x prevHash`. A block built with index 0 always gets the sentinel `prevHash` "0".

A **Blockchain** holds three fields:
- an array of blocks;
- a name index (`blockchainReference`), mapping names to positions;
- a counter (`currentIndex`).

It offers these operations:
- `insert_block` builds a block linked to the tail and appends it;
- `insert` appends a block exactly as the caller gives it;
- `search` and `extract` look a block up by its name;
- `verify` checks that every block's `prevHash` is its predecessor's `hash`;
- `return_blocks` and `return_reference` return the fields;
- `export` writes the chain as text;
- `import` reads such a text back, line by line.

The Dafny modules follow that structure:

- `JsText` — the JavaScript primitives the code relies on: `trim` (with ECMAScript's set of white-space characters), `split`, `join`, the decimal rendering of integers and `parseInt` with no radix.
- `JsValue` — JSON values, ECMAScript ToString, the `name` property lookup, and the foreign calls. `sha256`, `JSON.stringify` and `JSON.parse` are fields of a `Lib` value. Nothing is assumed about them: neither that the digest is collision-free nor that `parse` inverts `stringify`. A lemma that needs the codec to read back what it writes says so with `RoundTrips`.
- `Blocks` — the Block value, `compute_hash` and the constructor.
- `Ledgers` — the Blockchain's state as a value, its invariant `Valid`, and each operation as a function. These functions are the specification the class is proved against. The module also holds the lemmas about the operations.
- `Format` — the export text, and the import loop as functions over that text, with their lemmas.
- `Chain` — `class Blockchain`. Its fields are updated in place by methods with `modifies this`. Every method is proved equal to its specification function.

What the proofs establish:

- **Genesis override.** The genesis override and the digest are proved. So is the all-inputs fact behind `verify`: `insert_block` keeps every earlier block, puts at position `currentIndex` a block whose index is that position, and links it to the tail. After it, the chain verifies exactly when it verified before.
- **Inserts.** Both inserts keep the counter equal to the number of blocks and point the name at the new position, last write winning. Every name keeps pointing at a live block. `verify` holds exactly when every link matches, and it is read-only.
- **Import skips six blocks.** The export header contains only line-feed breaks, so splitting an exported text on CRLF yields the header as one piece. `import` drops the first seven pieces. Those are the header and the first **six** block lines, so only blocks from position 6 on come back (`Format.ImportOfExportSkipsSixBlocks`).
- **Stored hashes unused.** `import` never uses a line's stored `prevHash` or `hash`:
  - with `recalculateHash`, every line goes through `insert_block`, so the chain stays linked and positioned;
  - without it, the block is rebuilt from the parsed index, the payload and the timestamp token, and linked to the local tail, with its digest recomputed;
  - also without it, a line whose index parses to 0 is given the sentinel link and breaks the chain.

Two consequences of the code in `import` are easy to miss:
- With `recalculateHash` false, the stored hash is not kept. The block goes through `new Block`, which recomputes it.
- An exception thrown by one line does not undo the lines already imported. `Chain.Blockchain.Import` reports it as `Failed(line, error)`, with the earlier blocks kept.

`insert` returns `true` in `blockchain.js` and nothing in `src/blockchain.new.js`. The model returns `true`, as the library version does.

## Model

| member | source | states |
|---|---|---|
| Blocks.NewBlock | blockchain.js:11-27 | the four fields are copied; `prevHash` is "0" exactly when the index equals 0, else the argument; the digest is that of the fields as they stand after the override |
| Blocks.GenesisIgnoresPrevHash | src/blockchain.new.js:15 | at index 0 the `prevHash` argument has no effect on the block built |
| Blocks.SealedDeterminedByFields | src/blockchain.new.js:17-22 | two blocks whose digests are computed from their fields and whose four fields agree are equal |
| Blocks.StampTokenSameHashInput | src/blockchain.new.js:21 | the digest input sees only the rendered timestamp, so the timestamp read back as text gives the same input |
| Ledgers.Register | blockchain.js:54 | the name maps to the new position, all other names are unchanged, and `__proto__` leaves the map as it was |
| Ledgers.Insert | blockchain.js:68-76 | the caller's block is appended unchanged, earlier blocks kept, the name registered at the old counter, the counter incremented, the invariant kept |
| Ledgers.LinkHash | blockchain.js:52 | the link is the tail's digest, or "0" on an empty chain |
| Ledgers.NextBlock | blockchain.js:49-53 | the built block has index `currentIndex`, the payload's JSON text, the time given, the tail link and a digest matching its fields |
| Ledgers.InsertBlock | blockchain.js:48-61 | exactly one block appended, earlier blocks unchanged, the name registered at the old counter, the invariant kept, and the chain verifies afterwards iff it did before |
| Ledgers.Search | blockchain.js:82-84 | a block is found iff the name is registered, and it is the block at the registered position |
| Ledgers.Extract | blockchain.js:92-96 | a TypeError iff the name finds nothing or `data` is an object (or array holding one) whose coercion to text throws; undefined iff the block does not own the property; for `index`, `timestamp`, `prevHash` and `hash` the stored value; for `data` a SyntaxError iff `JSON.parse` fails on its text, else the decoded value |
| Ledgers.SearchAfterInsert | blockchain.js:82-84 | right after an insert under a name other than `__proto__`, `search` finds the new block, and every other name finds what it found before |
| Ledgers.LastWriteWins | blockchain.js:69-70 | for a name other than `__proto__`, a second insert under the same name redirects it to the second block, while the first block stays in the chain |
| Ledgers.ShortChainsLinked | blockchain.js:102-110 | chains of zero or one block verify |
| Ledgers.BrokenLinkDetected | blockchain.js:107 | one mismatched link makes `verify` fail |
| Ledgers.TamperUndetected | blockchain.js:102-110 | replacing a payload without recomputing the digest still verifies, while the block no longer matches its digest unless the new digest collides |
| Ledgers.GenesisInsertBlock | blockchain.js:49-54 | the first `insert_block` gives index 0 and `prevHash` "0", and the block is findable under its name, for a name other than `__proto__` |
| Ledgers.ExtractInsertedData | blockchain.js:92-96 | for a name other than `__proto__`, `extract(name, "data")` after `insert_block(data, name)` is `JSON.parse(JSON.stringify(data))`: a SyntaxError when that fails, and the payload itself when the codec round-trips it |
| Ledgers.TwoBlockScenario | blockchain.js:48-61 | two `insert_block` calls on a new chain verify, the second name finds index 1, and the first block's `prevHash` is "0" |
| Chain.Blockchain.constructor | blockchain.js:36-41 | a new Blockchain is empty, with counter 0 |
| Chain.Blockchain.InsertBlock | blockchain.js:48-61 | the new state is `Ledgers.InsertBlock` of the old one, the result is true, and the invariant is kept |
| Chain.Blockchain.Insert | blockchain.js:68-76 | the new state is `Ledgers.Insert` of the old one, the result is true, and the invariant is kept |
| Chain.Blockchain.Search | blockchain.js:82-84 | the result is `Ledgers.Search` of the state |
| Chain.Blockchain.Extract | blockchain.js:92-96 | the result is `Ledgers.Extract` of the state |
| Chain.Blockchain.Verify | blockchain.js:102-110 | the scan with early exit returns true iff every block's `prevHash` is its predecessor's `hash`, changing nothing |
| Chain.Blockchain.ReturnBlocks | blockchain.js:116-118 | the result is the block array |
| Chain.Blockchain.ReturnReference | blockchain.js:124-126 | the result is the name index |
| Chain.Blockchain.Export | src/blockchain.new.js:74-92 | the loop's text is the header, a CRLF, then the trimmed CRLF-join of one line per block, in chain order |
| Chain.Blockchain.ImportPiece | src/blockchain.new.js:98-115 | one line either throws, leaving the object unchanged, or leaves the state `Format.ImportLine` gives |
| Chain.Blockchain.ImportLines | src/blockchain.new.js:97-116 | the loop over the pieces gives the outcome and the state of `Format.ImportAll`; on `Failed(line, error)` the piece at `line`, read into the state the loop stopped in, throws that error |
| Chain.Blockchain.Import | src/blockchain.new.js:94-117 | the outcome and the new state are those of `Format.ImportAll` over the pieces after the first seven; on `Failed(line, error)` the piece at `line` of those, read into the final state, throws that error |
| Format.Header | src/blockchain.new.js:79-84 | the header holds no carriage return when the platform and version hold none: its line breaks are single line feeds |
| Format.ExportLine | src/blockchain.new.js:88 | a block's line starts with its index numeral and ends with its digest |
| Format.ExportLines | src/blockchain.new.js:87-90 | one line per block, in chain order, each `index \| JSON(data) \| timestamp \| prevHash \| hash` |
| Format.ImportPieces | src/blockchain.new.js:95 | the CRLF pieces from the eighth on; none when there are at most seven |
| Format.DecodeData | src/blockchain.new.js:99 | the payload is decoded twice: a SyntaxError iff either decoding fails, a TypeError iff the first result's coercion to text throws, else the second result |
| Format.RefName | src/blockchain.new.js:99-104 | the name IS the payload's `name` attribute coerced to a key when that attribute is neither undefined nor null, and the raw index token otherwise; a null payload throws, and so does an attribute whose coercion throws |
| Format.ImportLine | src/blockchain.new.js:98-115 | one line appends exactly one block, keeping the earlier ones and the invariant, or throws exactly when decoding fails, the payload is null, or the `name` attribute cannot be coerced to a key; the block's index is the position with `recalculateHash` and the parsed token without it; its link is "0" at index 0 and the tail's digest otherwise |
| Format.ImportAll | src/blockchain.new.js:97-116 | the loop keeps the invariant and every earlier block; when it imports everything it appends one block per piece, and when it fails at `line` the pieces before it each appended one block |
| Format.ImportAllStep | src/blockchain.new.js:97-116 | a piece that throws ends the import there, with that error and the state as it stood; a piece that is read moves the import on to the next piece from the new state |
| Format.ParseLine | src/blockchain.new.js:98 | a line with no " \| " is all index and its other fields are undefined; otherwise the index is the text before the first " \| " and `data` is present |
| Format.ParseExportLine | src/blockchain.new.js:98 | splitting an exported line on " \| " gives back its five tokens when none contains `\|` |
| Format.TrimKeepsLines | src/blockchain.new.js:91 | `trim` leaves the joined lines as they are whenever the last digest ends in a non-blank character |
| Format.ExportPieces | src/blockchain.new.js:79-91 | splitting an exported text on CRLF gives the header as one piece, then one piece per block |
| Format.ImportOfExportSkipsSixBlocks | src/blockchain.new.js:95 | importing an exported text reads only the lines of the blocks from position 6 on |
| Format.ReimportedBlock | src/blockchain.new.js:106-114 | a re-read line without `recalculateHash` keeps the index and the timestamp's text; it is linked to the local tail instead of the stored `prevHash`, and its digest is recomputed |
| Format.ReimportedPayload | src/blockchain.new.js:99-109 | the line of an `insert_block` block decodes to the original payload when the codec round-trips |
| Format.StoredHashesIgnored | src/blockchain.new.js:98-114 | two lines whose index, data and timestamp fields agree import identically, whatever their stored `prevHash` and `hash` |
| Format.ImportLineRegistersName | src/blockchain.new.js:101-114 | an imported block is findable under its reference name, unless that name is `__proto__` |
| Format.ImportLineFoundByName | src/blockchain.new.js:99-113 | a line whose payload has a string `name` attribute other than `__proto__` is imported and found under that name |
| Format.ImportLineFoundByIndex | src/blockchain.new.js:99-113 | a line whose payload is not null and has no usable `name` attribute is imported and found under its raw index token, when that token is not `__proto__` |
| Format.ImportLineGenesisOverride | src/blockchain.new.js:107-111 | without `recalculateHash`, a line whose index parses to 0 gets `prevHash` "0" and breaks a non-empty chain whose tail digest is not "0" |
| Format.ImportLineLinks | src/blockchain.new.js:107-114 | without `recalculateHash`, a line whose index does not parse to 0 leaves the chain verifying iff it did |
| Format.ImportRecalculatedLinked | src/blockchain.new.js:101-105 | with `recalculateHash`, a chain that verified still verifies, however the import ends |
| Format.ImportKeptLinked | src/blockchain.new.js:106-114 | without `recalculateHash`, a chain that verified still verifies when no index parses to 0 |
| Format.ImportRecalculatedPositioned | src/blockchain.new.js:101-105 | with `recalculateHash`, every imported block's index is its position in the chain |
| JsText.Trim | src/blockchain.new.js:91 | the result neither starts nor ends with white space, and a text that neither starts nor ends with white space is unchanged |
| JsText.TrimStart | src/blockchain.new.js:91 | exactly the leading white space is removed |
| JsText.TrimEnd | src/blockchain.new.js:91 | exactly the trailing white space is removed |
| JsText.IndexOfFirst | src/blockchain.new.js:95 | the search gives the first position where the separator occurs, and none exactly when it never occurs |
| JsText.Split | src/blockchain.new.js:95 | at least one piece, and joining the pieces with the separator gives the text back |
| JsText.JoinEnds | src/blockchain.new.js:91 | a join starts with its first part and ends with its last part |
| JsText.SplitJoin | src/blockchain.new.js:98 | splitting a join gives back the parts when no part holds the separator's marker character |
| JsText.Decimal | src/blockchain.new.js:81 | the numeral is made of digits with no leading zero |
| JsText.ParseInt | src/blockchain.new.js:108 | a number comes out only when a decimal digit follows the leading white space and an optional sign, and a negative one only after a minus sign |
| JsText.ParseRendered | src/blockchain.new.js:108 | `parseInt` of a rendered index gives the index back |
| JsText.ParseNoDigits | src/blockchain.new.js:108 | `parseInt` of a text with no decimal digit is NaN, hexadecimal letters included |
| JsValue.ToString | src/blockchain.new.js:99 | a string value coerces to itself; the coercion throws a TypeError exactly when the value is an object with its own `toString` member, or an array holding such a value at any depth |
| JsValue.LookupMember | src/blockchain.new.js:99 | a member's value is found iff some member has that key |
| JsValue.NameProperty | src/blockchain.new.js:99 | reading `name` throws exactly on null, and finds a value only on an object |

## Left out

- Chain.Blockchain.Insert: returns `true` as in `blockchain.js`; in `src/blockchain.new.js` it returns nothing.
- The file system in `export` and `import`: the folder check and creation, the file name and its `process.platform` separator, and the read and write calls. `export` returns the text it would write and `import` takes the text it would read. The header's platform and runtime version are parameters.
- `Date.now()`: given as `now` to `insert_block`, and as `clock(j)` while `import` reads the piece at position `j`.
- `console.log` tracing under `debugMode`, and the `console.log` of the header that `export` makes unconditionally: neither changes state, and `debugMode` is kept as a field only.
- `sha256`, `JSON.stringify` and `JSON.parse`: uninterpreted functions, as above.
- JSON values carry integers only. JavaScript strings are UTF-16 code units, but here they are sequences of characters. Floating point, infinities and the sign of zero are not part of the model.
- JsText.ParseInt: reads digits into an unbounded integer; the rounding of values beyond 2^53 is not modelled.
- Blocks.NewBlock: the index is a Number of the model. So the loose `==` against 0 is modelled for numbers only, not for strings or booleans that a caller could pass to `new Block`.
- Chain.Blockchain.Insert: a caller's block is a `Block` value with exactly the five fields. Other own properties on a caller's object, which `extract` would return, are not modelled.
- Chain.Blockchain.ReturnBlocks: returns the array as a value. The aliasing through which a caller could change the chain in place is not modelled; `return_reference` is treated the same way.
- Names are strings. A non-string name is a property key after ToString, which the model applies to the `name` attribute read by `import`; its TypeError is raised before the state changes, as the assignment to the name index comes before the push.
- `example/basic-example.js`: a demonstration script with no logic of its own.
