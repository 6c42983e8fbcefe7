/** The text of `packs/index` (crates/np2ptp-store/src/lib.rs): one line per packed chunk, written by
    appending and read back line by line, possibly with a torn last line. */
module IndexLog {
  import opened Basics
  import opened Text

  /** A byte range inside one of the pack files. */
  datatype PackLoc = PackLoc(pack: nat, offset: nat, length: nat)
  datatype IndexEntry = IndexEntry(hash: Digest, loc: PackLoc)
  type Index = map<Digest, PackLoc>

  predicate Representable(loc: PackLoc) {
    loc.pack <= U32_MAX && loc.offset <= U64_MAX && loc.length <= U32_MAX
  }

  /** An index line without its newline. */
  function EntryText(e: IndexEntry): Bytes {
    ToHex(e.hash) + [TAB] + (Decimal(e.loc.pack) + [TAB] + (Decimal(e.loc.offset) + [TAB] + Decimal(e.loc.length)))
  }

  function FormatEntry(e: IndexEntry): Bytes { EntryText(e) + [NEWLINE] }

  /** What precedes the first tab, and what follows it. */
  function Field(s: Bytes): Option<(Bytes, Bytes)> {
    var i := Find(s, TAB);
    if i == |s| then None else Some((s[..i], s[i + 1..]))
  }

  function ParseEntry(line: Bytes): Option<IndexEntry> {
    match Field(line)
    case None => None
    case Some((hash, rest1)) =>
      match Field(rest1)
      case None => None
      case Some((pack, rest2)) =>
        match Field(rest2)
        case None => None
        case Some((offset, length)) =>
          match (FromHex(hash), ParseUnsigned(pack, U32_MAX), ParseUnsigned(offset, U64_MAX),
            ParseUnsigned(length, U32_MAX))
          case (Some(d), Some(p), Some(o), Some(l)) => Some(IndexEntry(d, PackLoc(p, o, l)))
          case _ => None
  }

  /** The first line of a non-empty text as `str::lines` yields it, and the text after it. */
  function FirstLine(text: Bytes): (r: (Bytes, Bytes))
    requires text != []
    ensures |r.1| < |text|
  {
    var i := Find(text, NEWLINE);
    if i == |text| then (text, [])
    else if i > 0 && text[i - 1] == RETURN then (text[..i - 1], text[i + 1..])
    else (text[..i], text[i + 1..])
  }

  /** Every entry the lines of `text` spell, malformed lines skipped. */
  function Entries(text: Bytes): seq<IndexEntry>
    decreases |text|
  {
    if text == [] then []
    else
      var (line, rest) := FirstLine(text);
      match ParseEntry(line)
      case None => Entries(rest)
      case Some(e) => [e] + Entries(rest)
  }

  function InsertAll(log: seq<IndexEntry>, index: Index): Index {
    if log == [] then index else InsertAll(log[1..], index[log[0].hash := log[0].loc])
  }

  /** How much of `text` is complete lines: one past its last newline. */
  function CompleteLength(text: Bytes): (n: nat)
    ensures n <= |text|
    ensures n > 0 ==> text[n - 1] == NEWLINE
    ensures NEWLINE !in text[n..]
  {
    if text == [] then 0
    else if text[|text| - 1] == NEWLINE then |text|
    else
      var n := CompleteLength(text[..|text| - 1]);
      assert text[n..] == text[..|text| - 1][n..] + [text[|text| - 1]];
      n
  }

  /** The complete lines of `text`. */
  function Whole(text: Bytes): Bytes { text[..CompleteLength(text)] }

  /** Nothing, or lines that are all complete. */
  predicate WholeLines(text: Bytes) {
    text == [] || text[|text| - 1] == NEWLINE
  }

  lemma CompleteIsWhole(text: Bytes)
    ensures WholeLines(Whole(text))
    ensures WholeLines(text) <==> CompleteLength(text) == |text|
    ensures WholeLines(text) <==> Whole(text) == text
  {
    assert text[..|text|] == text;
  }

  /** What follows a line boundary is complete exactly as far as the text is. */
  lemma {:induction false} CompleteOfTail(text: Bytes, pos: nat)
    requires pos <= CompleteLength(text)
    ensures CompleteLength(text[pos..]) == CompleteLength(text) - pos
  {
    var n, tail := |text|, text[pos..];
    if pos < n {
      assert tail[|tail| - 1] == text[n - 1];
      if text[n - 1] != NEWLINE {
        CompleteOfTail(text[..n - 1], pos);
        assert text[..n - 1][pos..] == tail[..|tail| - 1];
      }
    }
  }

  lemma WholeTail(text: Bytes, pos: nat)
    requires pos <= CompleteLength(text)
    ensures Whole(text[pos..]) == Whole(text)[pos..]
  {
    CompleteOfTail(text, pos);
    hide CompleteLength;
    assert Whole(text)[pos..] == text[pos..CompleteLength(text)];
    SliceSlice(text, pos, CompleteLength(text));
  }

  function Render(log: seq<IndexEntry>): Bytes {
    if log == [] then [] else Render(log[..|log| - 1]) + FormatEntry(log[|log| - 1])
  }

  // ---- one line ----

  lemma DigitsHaveNo(s: Bytes, b: Byte)
    requires AllDigits(s) && !IsDigit(b)
    ensures b !in s
  {
  }

  lemma HexHasNo(s: Bytes, b: Byte)
    requires AllHex(s) && HexNibble(b).None?
    ensures b !in s
  {
  }

  lemma FieldOf(a: Bytes, rest: Bytes)
    requires TAB !in a
    ensures Field(a + [TAB] + rest) == Some((a, rest))
  {
    FindAfter(a, TAB, rest);
    assert (a + [TAB] + rest)[..|a|] == a && (a + [TAB] + rest)[|a| + 1..] == rest;
  }

  lemma ParseFormatted(e: IndexEntry)
    requires Representable(e.loc)
    ensures ParseEntry(EntryText(e)) == Some(e)
  {
    hide Find, FromHex, ToHex, ParseUnsigned, Decimal, AllHex, AllDigits, Field;
    var hash, pack, offset, length := ToHex(e.hash), Decimal(e.loc.pack), Decimal(e.loc.offset), Decimal(e.loc.length);
    HexHasNo(hash, TAB);
    DigitsHaveNo(pack, TAB);
    DigitsHaveNo(offset, TAB);
    FieldOf(hash, pack + [TAB] + (offset + [TAB] + length));
    FieldOf(pack, offset + [TAB] + length);
    FieldOf(offset, length);
    FromHexToHex(e.hash);
    ParseDecimal(e.loc.pack, U32_MAX);
    ParseDecimal(e.loc.offset, U64_MAX);
    ParseDecimal(e.loc.length, U32_MAX);
  }

  lemma EntryTextIsOneLine(e: IndexEntry)
    ensures EntryText(e) != []
    ensures NEWLINE !in EntryText(e)
    ensures EntryText(e)[|EntryText(e)| - 1] != RETURN
  {
    hide ToHex, Decimal, DigitValue;
    HexHasNo(ToHex(e.hash), NEWLINE);
    DigitsHaveNo(Decimal(e.loc.pack), NEWLINE);
    DigitsHaveNo(Decimal(e.loc.offset), NEWLINE);
    var length := Decimal(e.loc.length);
    DigitsHaveNo(length, NEWLINE);
    assert EntryText(e)[|EntryText(e)| - 1] == length[|length| - 1];
  }

  lemma FirstLineOf(e: IndexEntry, rest: Bytes)
    ensures FirstLine(FormatEntry(e) + rest) == (EntryText(e), rest)
  {
    var line := EntryText(e);
    var text := FormatEntry(e) + rest;
    EntryTextIsOneLine(e);
    hide EntryText, Find;
    assert text == line + [NEWLINE] + rest;
    FindAfter(line, NEWLINE, rest);
    assert text[..|line|] == line && text[|line| + 1..] == rest && text[|line| - 1] == line[|line| - 1];
  }

  // ---- whole logs ----

  ghost predicate AllRepresentable(log: seq<IndexEntry>) {
    forall i :: 0 <= i < |log| ==> Representable(log[i].loc)
  }

  lemma {:induction false} RenderAppend(a: seq<IndexEntry>, b: seq<IndexEntry>)
    ensures Render(a + b) == Render(a) + Render(b)
  {
    hide FormatEntry;
    if b == [] {
      assert a + b == a;
      EmptyTail(Render(a));
    } else {
      RenderAppend(a, b[..|b| - 1]);
      assert (a + b)[..|a + b| - 1] == a + b[..|b| - 1];
      ConcatAssoc(Render(a), Render(b[..|b| - 1]), FormatEntry(b[|b| - 1]));
    }
  }

  /** Reading back a rendered log gives exactly the log. */
  lemma {:induction false} EntriesOfRendered(log: seq<IndexEntry>)
    requires AllRepresentable(log)
    ensures Entries(Render(log)) == log
  {
    hide FormatEntry, EntryText, ParseEntry, FirstLine;
    if log != [] {
      var e, tail := log[0], log[1..];
      assert log == [e] + tail;
      RenderAppend([e], tail);
      RenderOne(e);
      FirstLineOf(e, Render(tail));
      ParseFormatted(e);
      EntriesOfRendered(tail);
    }
  }

  lemma RenderOne(e: IndexEntry)
    ensures Render([e]) == FormatEntry(e) && Render([e]) != []
  {
    assert [e][..0] == [];
    EmptyConcat(FormatEntry(e));
  }

  lemma {:induction false} InsertAppend(a: seq<IndexEntry>, b: seq<IndexEntry>, index: Index)
    ensures InsertAll(a + b, index) == InsertAll(b, InsertAll(a, index))
  {
    if a == [] {
      assert a + b == b;
    } else {
      assert (a + b)[1..] == a[1..] + b;
      InsertAppend(a[1..], b, index[a[0].hash := a[0].loc]);
    }
  }

  lemma RenderEndsLine(log: seq<IndexEntry>)
    requires log != []
    ensures Render(log) != [] && Render(log)[|Render(log)| - 1] == NEWLINE
  {
  }

  /** Appending a torn line to a rendered log leaves exactly the log complete. */
  lemma {:induction false} CompleteOfTorn(log: seq<IndexEntry>, torn: Bytes)
    requires NEWLINE !in torn
    ensures CompleteLength(Render(log) + torn) == |Render(log)|
  {
    hide FormatEntry;
    var text := Render(log) + torn;
    if torn == [] {
      EmptyTail(Render(log));
      if log != [] {
        RenderEndsLine(log);
      }
    } else {
      var n := |torn| - 1;
      CompleteOfTorn(log, torn[..n]);
      assert text[..|text| - 1] == Render(log) + torn[..n];
      assert text[|text| - 1] == torn[n];
    }
  }
}
