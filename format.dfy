/** The text that `export` writes and the way `import` reads a text back
    into a ledger, as functions; `Chain.Blockchain.Export` and
    `Chain.Blockchain.Import` are proved against them. */
module Format {
  import opened JsText
  import opened JsValue
  import opened Blocks
  import opened Ledgers

  const Indent: string := "            "

  /** `HEADER_INFO`: a template literal whose line breaks are all single
      line feeds. The platform and runtime version are parameters. */
  function Header(platform: string, version: string, length: nat): (h: string)
    ensures '\r' !in platform && '\r' !in version ==> '\r' !in h
  {
    var running := RunningLine(platform, version);
    var lengthLine := LengthLine(length);
    if '\r' !in platform && '\r' !in version then
      RunningLineHasNoCR(platform, version);
      assert '\r' !in lengthLine by {
        LengthLineHasNoCR(length);
      }
      assert '\r' !in BannerLines;
      NoCRConcat(running, lengthLine);
      NoCRConcat(running + lengthLine, BannerLines);
      running + lengthLine + BannerLines
    else
      running + lengthLine + BannerLines
  }

  /** The header's opening line feed and its `# Running OS:` line. */
  function RunningLine(platform: string, version: string): string {
    "\n" + Indent + "# Running OS: " + platform + " with " + version + ".\n"
  }

  /** The header's `# Blockchain Length:` line. */
  function LengthLine(length: nat): string {
    Indent + "# Blockchain Length: " + Decimal(length) + ".\n"
  }

  /** The header's two banner lines and the indentation before the first
      block line. */
  const BannerLines: string := Indent + "## AUTO-GENERATED ##\n" + Indent + "# BEGIN-BLOCKCHAIN #\n" + "        "

  /** The five tokens of a block's line. */
  function ExportTokens(lib: Lib, b: Block): seq<string> {
    [RenderNum(b.index), lib.stringify(b.data), RenderStamp(b.timestamp), b.prevHash, b.hash]
  }

  /** `construct_string`: `index | JSON(data) | timestamp | prevHash | hash`. */
  function ExportLine(lib: Lib, b: Block): (line: string)
    ensures RenderNum(b.index) <= line
    ensures |b.hash| <= |line| && line[|line| - |b.hash|..] == b.hash
  {
    RenderNum(b.index) + " | " + lib.stringify(b.data) + " | " + RenderStamp(b.timestamp)
    + " | " + b.prevHash + " | " + b.hash
  }

  /** `BLOCK_INFO` after the loop: one line per block, in chain order. */
  function ExportLines(lib: Lib, blocks: seq<Block>): (r: seq<string>)
    ensures |r| == |blocks|
    ensures forall i :: 0 <= i < |blocks| ==> r[i] == ExportLine(lib, blocks[i])
  {
    seq(|blocks|, i requires 0 <= i < |blocks| => ExportLine(lib, blocks[i]))
  }

  /** The file contents `export` writes: header, CRLF, then the block
      lines joined by CRLF and trimmed. */
  function ExportText(lib: Lib, blocks: seq<Block>, platform: string, version: string): string {
    Header(platform, version, |blocks|) + CRLF + Trim(Join(ExportLines(lib, blocks), CRLF))
  }

  /** `split('\r\n').slice(7)`: the pieces `import` reads as block lines. */
  function ImportPieces(text: string): (r: seq<string>)
    ensures |Split(text, CRLF)| <= 7 ==> r == []
    ensures |Split(text, CRLF)| > 7 ==> r == Split(text, CRLF)[7..]
  {
    var pieces := Split(text, CRLF);
    if |pieces| <= 7 then [] else pieces[7..]
  }

  /** The destructured `[index, data, timestamp, prevHash, hash]` of a
      line; a missing field is undefined (None). */
  datatype LineFields = LineFields(index: string, data: Option<string>, timestamp: Option<string>,
                                   prevHash: Option<string>, hash: Option<string>)

  function At(parts: seq<string>, k: nat): Option<string> {
    if k < |parts| then Some(parts[k]) else None
  }

  /** `elem.split(' | ')` destructured. */
  function ParseLine(piece: string): (f: LineFields)
    ensures IndexOf(piece, FieldSep).None? ==> f == LineFields(piece, None, None, None, None)
    ensures IndexOf(piece, FieldSep).Some? ==> f.index == piece[..IndexOf(piece, FieldSep).value] && f.data.Some?
  {
    var parts := Split(piece, FieldSep);
    LineFields(parts[0], At(parts, 1), At(parts, 2), At(parts, 3), At(parts, 4))
  }

  /** The argument `JSON.parse` sees for a field: undefined becomes the
      text "undefined". */
  function ArgText(field: Option<string>): string {
    match field
    case None => "undefined"
    case Some(t) => t
  }

  /** `JSON.parse(JSON.parse(data))`: the stored field holds the JSON of a
      JSON text, so it is decoded twice, the first result coerced to a
      string; either parse may throw a SyntaxError, and the coercion a
      TypeError. */
  function DecodeData(lib: Lib, f: LineFields): (r: Result<Json>)
    ensures var first := lib.parse(ArgText(f.data));
      && (r == Err(TypeError) <==> first.Some? && Unprintable(first.value))
      && (r.Ok? <==> first.Some? && !Unprintable(first.value) && lib.parse(ToString(first.value).value).Some?)
      && (r.Ok? ==> r.value == lib.parse(ToString(first.value).value).value)
      && (r.Err? && r.error == SyntaxError
          <==> first.None? || (!Unprintable(first.value) && lib.parse(ToString(first.value).value).None?))
  {
    match lib.parse(ArgText(f.data))
    case None => Err(SyntaxError)
    case Some(first) =>
      match ToString(first)
      case Err(e) => Err(e)
      case Ok(text) =>
        match lib.parse(text)
        case None => Err(SyntaxError)
        case Some(second) => Ok(second)
  }

  /** The decoded payload has a `name` attribute that is neither undefined
      nor null. */
  predicate NamedPayload(v: Json) {
    v.JObject? && LookupMember(v.members, "name").Some? && !LookupMember(v.members, "name").value.JNull?
  }

  /** The reference name of an imported line: the `name` attribute of the
      decoded payload as a property key when it is neither undefined nor
      null, else the raw index token. A null payload throws, and so does
      an attribute whose coercion to a key throws. */
  function RefName(f: LineFields, v: Json): (r: Result<string>)
    ensures v.JNull? ==> r == Err(TypeError)
    ensures NamedPayload(v) ==> r == ToString(LookupMember(v.members, "name").value)
    ensures !v.JNull? && !NamedPayload(v) ==> r == Ok(f.index)
    ensures r.Err? <==> v.JNull? || (NamedPayload(v) && Unprintable(LookupMember(v.members, "name").value))
  {
    match NameProperty(v)
    case Err(e) => Err(e)
    case Ok(attr) =>
      if attr.None? || attr.value.JNull? then Ok(f.index) else ToString(attr.value)
  }

  /** The `timestamp` an imported block keeps: the token as text. */
  function StampOf(field: Option<string>): Stamp {
    match field
    case None => NoStamp
    case Some(t) => Token(t)
  }

  /** One iteration of `import`'s loop: with `recalculateHash` the payload
      goes through `insert_block` at time `now`; without it a Block is
      built from the parsed index, the payload and the timestamp token,
      linked to the local tail, and appended by `insert`. The stored
      `prevHash` and `hash` tokens are not used. */
  function ImportLine(lib: Lib, l: Ledger, f: LineFields, recalculateHash: bool, now: nat): (r: Result<Ledger>)
    requires Valid(l)
    ensures r.Ok? ==> Valid(r.value) && |r.value.blocks| == |l.blocks| + 1 && r.value.blocks[..|l.blocks|] == l.blocks
    ensures r.Err? <==> DecodeData(lib, f).Err? || DecodeData(lib, f).value.JNull?
                        || (NamedPayload(DecodeData(lib, f).value)
                            && Unprintable(LookupMember(DecodeData(lib, f).value.members, "name").value))
    ensures r.Err? && DecodeData(lib, f).Ok? ==> r.error == TypeError
    ensures r.Ok? && recalculateHash ==> r.value.blocks[|l.blocks|].index == Int(|l.blocks|)
    ensures r.Ok? && !recalculateHash ==> r.value.blocks[|l.blocks|].index == ParseInt(f.index)
    ensures r.Ok? ==> r.value.blocks[|l.blocks|].prevHash
                      == if r.value.blocks[|l.blocks|].index == Int(0) then GenesisPrevHash else TailHash(l.blocks)
  {
    match DecodeData(lib, f)
    case Err(e) => Err(e)
    case Ok(v) =>
      match RefName(f, v)
      case Err(e) => Err(e)
      case Ok(name) =>
        if recalculateHash then Ok(InsertBlock(lib, l, v, name, now))
        else Ok(Insert(l, NewBlock(lib, ParseInt(f.index), v, StampOf(f.timestamp), LinkHash(l)), name))
  }

  lemma PrefixOfPrefix(a: seq<Block>, b: seq<Block>, c: seq<Block>)
    requires |a| <= |b| <= |c| && b[..|a|] == a && c[..|b|] == b
    ensures c[..|a|] == a
  {
    assert c[..|a|] == c[..|b|][..|a|];
  }

  /** How an import ends: every piece appended, or an exception thrown by
      the piece at position `line`, the pieces before it staying appended. */
  datatype ImportOutcome = Imported | Failed(line: nat, error: JsError)

  /** `import`'s loop over `pieces`, the first of them at position `k`;
      `clock(j)` is what `Date.now()` gives while piece `j` is handled. */
  function ImportAll(lib: Lib, l: Ledger, pieces: seq<string>, recalculateHash: bool, clock: nat -> nat, k: nat)
    : (r: (ImportOutcome, Ledger))
    requires Valid(l)
    ensures Valid(r.1) && |l.blocks| <= |r.1.blocks| && r.1.blocks[..|l.blocks|] == l.blocks
    ensures r.0.Imported? ==> |r.1.blocks| == |l.blocks| + |pieces|
    ensures r.0.Failed? ==> k <= r.0.line < k + |pieces| && |r.1.blocks| == |l.blocks| + (r.0.line - k)
    decreases |pieces|
  {
    if pieces == [] then (Imported, l)
    else
      match ImportLine(lib, l, ParseLine(pieces[0]), recalculateHash, clock(k))
      case Err(e) => (Failed(k, e), l)
      case Ok(next) =>
        var r := ImportAll(lib, next, pieces[1..], recalculateHash, clock, k + 1);
        PrefixOfPrefix(l.blocks, next.blocks, r.1.blocks);
        r
  }

  /** The loop of `import` after `i` pieces: a line that throws ends the
      import where it stands, a line read moves it on to the next piece. */
  lemma ImportAllAdvance(lib: Lib, start: Ledger, l: Ledger, pieces: seq<string>, recalculateHash: bool,
                         clock: nat -> nat, i: nat)
    requires Valid(start) && Valid(l) && i < |pieces|
    requires ImportAll(lib, start, pieces, recalculateHash, clock, 0) == ImportAll(lib, l, pieces[i..], recalculateHash, clock, i)
    ensures var step := ImportLine(lib, l, ParseLine(pieces[i]), recalculateHash, clock(i));
      && (step.Err? ==> ImportAll(lib, start, pieces, recalculateHash, clock, 0) == (Failed(i, step.error), l))
      && (step.Ok? ==> ImportAll(lib, start, pieces, recalculateHash, clock, 0)
                       == ImportAll(lib, step.value, pieces[i + 1..], recalculateHash, clock, i + 1))
  {
    assert pieces[i..][0] == pieces[i] && pieces[i..][1..] == pieces[i + 1..];
  }

  /** The outcomes of one line, branch by branch. */
  lemma ImportLineCases(lib: Lib, l: Ledger, f: LineFields, recalculateHash: bool, now: nat)
    requires Valid(l)
    ensures var d := DecodeData(lib, f);
      && (d.Err? ==> ImportLine(lib, l, f, recalculateHash, now) == Err(d.error))
      && (d.Ok? && RefName(f, d.value).Err? ==> ImportLine(lib, l, f, recalculateHash, now) == Err(RefName(f, d.value).error))
      && (d.Ok? && RefName(f, d.value).Ok? && recalculateHash
          ==> ImportLine(lib, l, f, recalculateHash, now) == Ok(InsertBlock(lib, l, d.value, RefName(f, d.value).value, now)))
      && (d.Ok? && RefName(f, d.value).Ok? && !recalculateHash
          ==> ImportLine(lib, l, f, recalculateHash, now)
              == Ok(Insert(l, NewBlock(lib, ParseInt(f.index), d.value, StampOf(f.timestamp), TailHash(l.blocks)), RefName(f, d.value).value)))
  {
  }

  // ---------------------------------------------------------------------
  // The line format

  lemma ExportLineIsJoin(lib: Lib, b: Block)
    ensures ExportLine(lib, b) == Join(ExportTokens(lib, b), FieldSep)
  {
    var t := ExportTokens(lib, b);
    assert Join(t[4..], FieldSep) == b.hash;
    assert Join(t[3..], FieldSep) == b.prevHash + FieldSep + b.hash by {
      assert t[3..][1..] == t[4..];
    }
    assert Join(t[2..], FieldSep) == RenderStamp(b.timestamp) + FieldSep + b.prevHash + FieldSep + b.hash by {
      assert t[2..][1..] == t[3..];
    }
    assert Join(t[1..], FieldSep) == lib.stringify(b.data) + FieldSep + RenderStamp(b.timestamp) + FieldSep + b.prevHash + FieldSep + b.hash by {
      assert t[1..][1..] == t[2..];
    }
  }

  /** No token of the block contains `|`, so splitting its line on " | "
      gives the tokens back. */
  predicate TokensClean(lib: Lib, b: Block) {
    && '|' !in lib.stringify(b.data) && '|' !in RenderStamp(b.timestamp)
    && '|' !in b.prevHash && '|' !in b.hash
  }

  /** `import` reads the five fields of a line `export` wrote, when no
      token contains `|`. */
  lemma ParseExportLine(lib: Lib, b: Block)
    requires TokensClean(lib, b)
    ensures ParseLine(ExportLine(lib, b))
      == LineFields(RenderNum(b.index), Some(lib.stringify(b.data)), Some(RenderStamp(b.timestamp)),
                    Some(b.prevHash), Some(b.hash))
  {
    ExportLineIsJoin(lib, b);
    FieldSepMarker();
    var t := ExportTokens(lib, b);
    SplitJoin(t, FieldSep, 1);
  }

  /** The last block's digest is non-empty and does not end in white space. */
  predicate LastDigestClean(blocks: seq<Block>) {
    |blocks| > 0 ==> var h := blocks[|blocks| - 1].hash; |h| > 0 && !IsJsSpace(h[|h| - 1])
  }

  /** No export line contains a carriage return, the header's parameters
      neither, and the last line does not end in white space. */
  predicate TextClean(lib: Lib, blocks: seq<Block>, platform: string, version: string) {
    && '\r' !in platform && '\r' !in version
    && (forall i :: 0 <= i < |blocks| ==> '\r' !in ExportLine(lib, blocks[i]))
    && LastDigestClean(blocks)
  }

  lemma RunningLineHasNoCR(platform: string, version: string)
    requires '\r' !in platform && '\r' !in version
    ensures '\r' !in RunningLine(platform, version)
  {
    var opening := "\n" + Indent + "# Running OS: ";
    assert '\r' !in opening;
    NoCRConcat(opening, platform);
    NoCRConcat(opening + platform, " with ");
    NoCRConcat(opening + platform + " with ", version);
    NoCRConcat(opening + platform + " with " + version, ".\n");
  }

  lemma LengthLineHasNoCR(length: nat)
    ensures '\r' !in LengthLine(length)
  {
    var d := Decimal(length);
    assert '\r' !in d by {
      assert forall i :: 0 <= i < |d| ==> d[i] != '\r';
    }
    var opening := Indent + "# Blockchain Length: ";
    assert '\r' !in opening;
    NoCRConcat(opening, d);
    NoCRConcat(opening + d, ".\n");
  }

  /** Concatenation brings in no carriage return. */
  lemma NoCRConcat(a: string, b: string)
    requires '\r' !in a && '\r' !in b
    ensures '\r' !in a + b
  {
  }

  lemma {:induction false} JoinBounds(parts: seq<string>, sep: string)
    requires |parts| > 0 && forall i :: 0 <= i < |parts| ==> |parts[i]| > 0
    ensures var j := Join(parts, sep);
      |j| > 0 && j[0] == parts[0][0] && j[|j| - 1] == parts[|parts| - 1][|parts[|parts| - 1]| - 1]
    decreases |parts|
  {
    if |parts| > 1 {
      JoinBounds(parts[1..], sep);
    }
  }

  /** A block's line starts with its index numeral and ends with its digest. */
  lemma ExportLineBounds(lib: Lib, b: Block)
    ensures var line := ExportLine(lib, b);
      && |line| > 0 && line[0] == RenderNum(b.index)[0]
      && (|b.hash| > 0 ==> line[|line| - 1] == b.hash[|b.hash| - 1])
  {
  }

  /** Every line `export` writes is non-empty. */
  lemma ExportLinesNonEmpty(lib: Lib, blocks: seq<Block>)
    ensures forall i :: 0 <= i < |blocks| ==> |ExportLines(lib, blocks)[i]| > 0
  {
    forall i | 0 <= i < |blocks| ensures |ExportLines(lib, blocks)[i]| > 0 {
      ExportLineBounds(lib, blocks[i]);
    }
  }

  /** The joined block lines start with the first index numeral and end
      with the last digest's last character. */
  lemma JoinedLinesBounds(lib: Lib, blocks: seq<Block>)
    requires |blocks| > 0 && |blocks[|blocks| - 1].hash| > 0
    ensures var j := Join(ExportLines(lib, blocks), CRLF);
      var h := blocks[|blocks| - 1].hash;
      |j| > 0 && j[0] == RenderNum(blocks[0].index)[0] && j[|j| - 1] == h[|h| - 1]
  {
    var lines := ExportLines(lib, blocks);
    ExportLinesNonEmpty(lib, blocks);
    JoinBounds(lines, CRLF);
    ExportLineBounds(lib, blocks[0]);
    ExportLineBounds(lib, blocks[|blocks| - 1]);
  }

  /** Trim leaves the joined lines alone: a line starts with the index
      numeral and the last one ends with the last digest. */
  lemma TrimKeepsLines(lib: Lib, blocks: seq<Block>)
    requires LastDigestClean(blocks)
    ensures Trim(Join(ExportLines(lib, blocks), CRLF)) == Join(ExportLines(lib, blocks), CRLF)
  {
    if |blocks| > 0 {
      JoinedLinesBounds(lib, blocks);
    }
  }

  /** The pieces an exported text consists of. */
  function ExportParts(lib: Lib, blocks: seq<Block>, platform: string, version: string): seq<string> {
    [Header(platform, version, |blocks|)] + (if blocks == [] then [""] else ExportLines(lib, blocks))
  }

  lemma ExportTextAsJoin(lib: Lib, blocks: seq<Block>, platform: string, version: string)
    requires TextClean(lib, blocks, platform, version)
    ensures ExportText(lib, blocks, platform, version) == Join(ExportParts(lib, blocks, platform, version), CRLF)
  {
    var header := Header(platform, version, |blocks|);
    var lines := ExportLines(lib, blocks);
    var body := Join(lines, CRLF);
    assert Trim(body) == body by {
      TrimKeepsLines(lib, blocks);
    }
    assert ExportText(lib, blocks, platform, version) == header + CRLF + body;
    if blocks == [] {
      assert body == "";
      JoinCons(header, [""], CRLF);
    } else {
      JoinCons(header, lines, CRLF);
    }
  }

  lemma ExportPartsHaveNoCR(lib: Lib, blocks: seq<Block>, platform: string, version: string)
    requires TextClean(lib, blocks, platform, version)
    ensures forall i :: 0 <= i < |ExportParts(lib, blocks, platform, version)| ==> CRLF[0] !in ExportParts(lib, blocks, platform, version)[i]
  {
    var parts := ExportParts(lib, blocks, platform, version);
    forall i | 0 <= i < |parts| ensures CRLF[0] !in parts[i] {
      if i > 0 && blocks != [] {
        assert parts[i] == ExportLine(lib, blocks[i - 1]);
      }
    }
  }

  lemma SplitExportText(lib: Lib, blocks: seq<Block>, platform: string, version: string)
    requires TextClean(lib, blocks, platform, version)
    ensures Split(ExportText(lib, blocks, platform, version), CRLF)
         == Split(Join(ExportParts(lib, blocks, platform, version), CRLF), CRLF)
  {
    ExportTextAsJoin(lib, blocks, platform, version);
  }

  lemma SplitExportParts(lib: Lib, blocks: seq<Block>, platform: string, version: string)
    requires TextClean(lib, blocks, platform, version)
    ensures Split(Join(ExportParts(lib, blocks, platform, version), CRLF), CRLF) == ExportParts(lib, blocks, platform, version)
  {
    var parts := ExportParts(lib, blocks, platform, version);
    assert forall i :: 0 <= i < |parts| ==> CRLF[0] !in parts[i] by {
      ExportPartsHaveNoCR(lib, blocks, platform, version);
    }
    CRLFMarker();
    SplitJoin(parts, CRLF, 0);
  }

  /** Splitting an exported text on CRLF gives the header as ONE piece
      (its breaks are line feeds only), then one piece per block. */
  lemma ExportPieces(lib: Lib, blocks: seq<Block>, platform: string, version: string)
    requires TextClean(lib, blocks, platform, version)
    ensures Split(ExportText(lib, blocks, platform, version), CRLF) == ExportParts(lib, blocks, platform, version)
  {
    SplitExportText(lib, blocks, platform, version);
    SplitExportParts(lib, blocks, platform, version);
  }

  /** What `import` makes of a text `export` wrote: the seven pieces it
      skips are the header and the first SIX block lines, so only the
      blocks from position 6 on are read back. */
  lemma ImportOfExportSkipsSixBlocks(lib: Lib, blocks: seq<Block>, platform: string, version: string)
    requires TextClean(lib, blocks, platform, version)
    ensures ImportPieces(ExportText(lib, blocks, platform, version))
      == if |blocks| <= 6 then [] else ExportLines(lib, blocks)[6..]
  {
    ExportPieces(lib, blocks, platform, version);
    PartsAfterSeven(lib, blocks, platform, version);
  }

  /** The pieces after the seventh of an exported text's parts are the
      block lines from position 6 on. */
  lemma PartsAfterSeven(lib: Lib, blocks: seq<Block>, platform: string, version: string)
    ensures var parts := ExportParts(lib, blocks, platform, version);
      (if |parts| <= 7 then [] else parts[7..]) == if |blocks| <= 6 then [] else ExportLines(lib, blocks)[6..]
  {
    var parts := ExportParts(lib, blocks, platform, version);
    assert |parts| == if blocks == [] then 2 else |blocks| + 1;
    if |blocks| > 6 {
      DropAfterHead(Header(platform, version, |blocks|), ExportLines(lib, blocks), 6);
    }
  }

  /** Dropping `k + 1` pieces after a head piece drops `k` of the rest. */
  lemma DropAfterHead(head: string, rest: seq<string>, k: nat)
    requires k <= |rest|
    ensures ([head] + rest)[k + 1..] == rest[k..]
  {
  }

  /** A line `export` wrote, read back without `recalculateHash`: the
      rebuilt block keeps the index, holds the timestamp as its text, is
      linked to the local tail (the sentinel at index 0) instead of the
      stored `prevHash`, and has a digest recomputed from those fields,
      not the stored one. */
  lemma ReimportedBlock(lib: Lib, l: Ledger, b: Block, now: nat)
    requires Valid(l) && TokensClean(lib, b)
    requires ImportLine(lib, l, ParseLine(ExportLine(lib, b)), false, now).Ok?
    ensures var c := ImportLine(lib, l, ParseLine(ExportLine(lib, b)), false, now).value.blocks[|l.blocks|];
      && c.index == b.index
      && c.timestamp == Token(RenderStamp(b.timestamp))
      && c.prevHash == (if b.index == Int(0) then GenesisPrevHash else TailHash(l.blocks))
      && c.hash == lib.sha256(HashInput(lib, c.index, c.data, b.timestamp, c.prevHash))
  {
    ParseExportLine(lib, b);
    ParseRendered(b.index);
    var c := ImportLine(lib, l, ParseLine(ExportLine(lib, b)), false, now).value.blocks[|l.blocks|];
    StampTokenSameHashInput(lib, c.index, c.data, b.timestamp, c.prevHash);
  }

  /** The payload a line written for an `insert_block` block decodes to
      is the original payload, provided the codec reads back what it
      writes for both the payload and its JSON text. */
  lemma ReimportedPayload(lib: Lib, b: Block, data: Json)
    requires TokensClean(lib, b) && b.data == JString(lib.stringify(data))
    requires RoundTrips(lib, b.data) && RoundTrips(lib, data)
    ensures DecodeData(lib, ParseLine(ExportLine(lib, b))) == Ok(data)
  {
    ParseExportLine(lib, b);
  }

  /** The stored `prevHash` and `hash` tokens of a line have no effect on
      what `import` does with it. */
  lemma StoredHashesIgnored(lib: Lib, l: Ledger, f: LineFields, g: LineFields, recalculateHash: bool, now: nat)
    requires Valid(l)
    requires f.index == g.index && f.data == g.data && f.timestamp == g.timestamp
    ensures ImportLine(lib, l, f, recalculateHash, now) == ImportLine(lib, l, g, recalculateHash, now)
  {
    assert DecodeData(lib, f) == DecodeData(lib, g);
    ImportLineCases(lib, l, f, recalculateHash, now);
    ImportLineCases(lib, l, g, recalculateHash, now);
    if DecodeData(lib, f).Ok? {
      assert RefName(f, DecodeData(lib, f).value) == RefName(g, DecodeData(lib, g).value);
    }
  }

  // ---------------------------------------------------------------------
  // Links after an import

  /** An imported line is findable under its reference name. */
  lemma ImportLineRegistersName(lib: Lib, l: Ledger, f: LineFields, recalculateHash: bool, now: nat)
    requires Valid(l) && ImportLine(lib, l, f, recalculateHash, now).Ok?
    ensures var name := RefName(f, DecodeData(lib, f).value).value;
      var next := ImportLine(lib, l, f, recalculateHash, now).value;
      name != "__proto__" ==> Search(next, name) == Some(next.blocks[|l.blocks|])
  {
  }

  /** A line whose payload has a string `name` attribute is imported, and
      the new block is found under that name. */
  lemma ImportLineFoundByName(lib: Lib, l: Ledger, f: LineFields, recalculateHash: bool, now: nat, n: string)
    requires Valid(l) && n != "__proto__"
    requires DecodeData(lib, f).Ok? && DecodeData(lib, f).value.JObject?
    requires LookupMember(DecodeData(lib, f).value.members, "name") == Some(JString(n))
    ensures ImportLine(lib, l, f, recalculateHash, now).Ok?
    ensures var next := ImportLine(lib, l, f, recalculateHash, now).value;
      Search(next, n) == Some(next.blocks[|l.blocks|])
  {
    ImportLineCases(lib, l, f, recalculateHash, now);
    assert RefName(f, DecodeData(lib, f).value) == Ok(n);
  }

  /** A line whose payload is not null and has no `name` attribute (or a
      null one) is imported, and the new block is found under the raw
      index token. */
  lemma ImportLineFoundByIndex(lib: Lib, l: Ledger, f: LineFields, recalculateHash: bool, now: nat)
    requires Valid(l) && f.index != "__proto__"
    requires DecodeData(lib, f).Ok? && !DecodeData(lib, f).value.JNull? && !NamedPayload(DecodeData(lib, f).value)
    ensures ImportLine(lib, l, f, recalculateHash, now).Ok?
    ensures var next := ImportLine(lib, l, f, recalculateHash, now).value;
      Search(next, f.index) == Some(next.blocks[|l.blocks|])
  {
    ImportLineCases(lib, l, f, recalculateHash, now);
    assert RefName(f, DecodeData(lib, f).value) == Ok(f.index);
  }

  /** Without `recalculateHash`, a line whose index parses to 0 gets the
      sentinel `prevHash` even on a non-empty chain, which then no longer
      verifies unless its tail digest is itself "0". */
  lemma ImportLineGenesisOverride(lib: Lib, l: Ledger, f: LineFields, now: nat)
    requires Valid(l) && ImportLine(lib, l, f, false, now).Ok?
    requires ParseInt(f.index) == Int(0)
    ensures var next := ImportLine(lib, l, f, false, now).value;
      && next.blocks[|l.blocks|].prevHash == GenesisPrevHash
      && (|l.blocks| > 0 && TailHash(l.blocks) != GenesisPrevHash ==> !Linked(next.blocks))
  {
    var next := ImportLine(lib, l, f, false, now).value;
    assert next.blocks[|l.blocks|].prevHash == GenesisPrevHash;
    SentinelAfterTail(l.blocks, next.blocks);
  }

  /** A block with the sentinel `prevHash` appended to a chain whose tail
      digest is not the sentinel breaks the chain. */
  lemma SentinelAfterTail(blocks: seq<Block>, longer: seq<Block>)
    requires |longer| == |blocks| + 1 && longer[..|blocks|] == blocks
    requires longer[|blocks|].prevHash == GenesisPrevHash
    ensures |blocks| > 0 && TailHash(blocks) != GenesisPrevHash ==> !Linked(longer)
  {
    if |blocks| > 0 && TailHash(blocks) != GenesisPrevHash {
      var k := |blocks| - 1;
      assert longer[k] == longer[..|blocks|][k] == blocks[k];
      BrokenLinkDetected(longer, |blocks|);
    }
  }

  /** Without `recalculateHash`, a line whose index does not parse to 0 is
      linked to the tail, so the chain verifies afterwards iff it did before. */
  lemma ImportLineLinks(lib: Lib, l: Ledger, f: LineFields, now: nat)
    requires Valid(l) && ImportLine(lib, l, f, false, now).Ok?
    requires ParseInt(f.index) != Int(0)
    ensures Linked(ImportLine(lib, l, f, false, now).value.blocks) <==> Linked(l.blocks)
  {
    LinkedExtend(l.blocks, ImportLine(lib, l, f, false, now).value.blocks);
  }

  /** With `recalculateHash`, every line goes through `insert_block`: a
      chain that verified before still verifies, however the import ends. */
  lemma {:induction false} ImportRecalculatedLinked(lib: Lib, l: Ledger, pieces: seq<string>, clock: nat -> nat, k: nat)
    requires Valid(l) && Linked(l.blocks)
    ensures Linked(ImportAll(lib, l, pieces, true, clock, k).1.blocks)
    decreases |pieces|
  {
    if pieces != [] {
      match ImportLine(lib, l, ParseLine(pieces[0]), true, clock(k))
      case Err(_) =>
      case Ok(next) =>
        ImportRecalculatedLinked(lib, next, pieces[1..], clock, k + 1);
    }
  }

  /** Without `recalculateHash`, a chain that verified before still
      verifies when no imported index parses to 0. */
  lemma {:induction false} ImportKeptLinked(lib: Lib, l: Ledger, pieces: seq<string>, clock: nat -> nat, k: nat)
    requires Valid(l) && Linked(l.blocks)
    requires forall i :: 0 <= i < |pieces| ==> !GenesisLine(pieces[i])
    ensures Linked(ImportAll(lib, l, pieces, false, clock, k).1.blocks)
    decreases |pieces|
  {
    if pieces != [] {
      var f := ParseLine(pieces[0]);
      ImportAllStep(lib, l, pieces, false, clock, k);
      if ImportLine(lib, l, f, false, clock(k)).Ok? {
        ImportLineLinks(lib, l, f, clock(k));
        NoGenesisTail(pieces);
        ImportKeptLinked(lib, ImportLine(lib, l, f, false, clock(k)).value, pieces[1..], clock, k + 1);
      }
    }
  }

  /** A line whose index parses to 0. */
  predicate GenesisLine(piece: string) {
    ParseInt(ParseLine(piece).index) == Int(0)
  }

  lemma NoGenesisTail(pieces: seq<string>)
    requires pieces != [] && forall i :: 0 <= i < |pieces| ==> !GenesisLine(pieces[i])
    ensures forall i :: 0 <= i < |pieces[1..]| ==> !GenesisLine(pieces[1..][i])
  {
    assert forall i :: 0 <= i < |pieces[1..]| ==> pieces[1..][i] == pieces[i + 1];
  }

  /** One step of `import`'s loop over a non-empty list of pieces. */
  lemma ImportAllStep(lib: Lib, l: Ledger, pieces: seq<string>, recalculateHash: bool, clock: nat -> nat, k: nat)
    requires Valid(l) && pieces != []
    ensures var step := ImportLine(lib, l, ParseLine(pieces[0]), recalculateHash, clock(k));
      && (step.Err? ==> ImportAll(lib, l, pieces, recalculateHash, clock, k) == (Failed(k, step.error), l))
      && (step.Ok? ==> ImportAll(lib, l, pieces, recalculateHash, clock, k)
                       == ImportAll(lib, step.value, pieces[1..], recalculateHash, clock, k + 1))
  {
  }

  /** Every block from position `from` on sits at the position its index
      names. */
  predicate Positioned(blocks: seq<Block>, from: nat) {
    forall j :: from <= j < |blocks| ==> blocks[j].index == Int(j)
  }

  /** With `recalculateHash`, each imported block's index is its position
      in the chain, whatever index the line stored. */
  lemma {:induction false} ImportRecalculatedPositioned(lib: Lib, l: Ledger, pieces: seq<string>, clock: nat -> nat, k: nat)
    requires Valid(l)
    ensures Positioned(ImportAll(lib, l, pieces, true, clock, k).1.blocks, |l.blocks|)
    decreases |pieces|
  {
    if pieces != [] {
      match ImportLine(lib, l, ParseLine(pieces[0]), true, clock(k))
      case Err(_) =>
      case Ok(next) =>
        ImportRecalculatedPositioned(lib, next, pieces[1..], clock, k + 1);
        var r := ImportAll(lib, next, pieces[1..], true, clock, k + 1).1;
        assert ImportAll(lib, l, pieces, true, clock, k).1 == r;
        forall j | |l.blocks| <= j < |r.blocks| ensures r.blocks[j].index == Int(j) {
          if j == |l.blocks| {
            assert r.blocks[j] == r.blocks[..|next.blocks|][j] == next.blocks[j];
          }
        }
    }
  }
}
