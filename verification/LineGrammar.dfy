/** What the lines of `packs/index` and `refs.tsv` are, without reference to how they are parsed, and
    that the two line parsers accept exactly those. */
module LineGrammar {
  import opened Basics
  import opened Text
  import opened Numerals
  import opened IndexLog
  import opened RefLog

  function Lower(b: Byte): Byte { if 65 <= b <= 70 then b + 32 else b }

  function LowerAll(s: Bytes): (r: Bytes)
    ensures |r| == |s| && forall i :: 0 <= i < |s| ==> r[i] == Lower(s[i])
  {
    if s == [] then [] else LowerAll(s[..|s| - 1]) + [Lower(s[|s| - 1])]
  }

  /** The 64 digits of a digest, in either case. */
  ghost predicate HexSpells(s: Bytes, d: Digest) {
    |s| == 64 && LowerAll(s) == ToHex(d)
  }

  lemma NibbleIff(b: Byte)
    ensures HexNibble(b).Some? ==> HexDigit(HexNibble(b).value) == Lower(b)
    ensures HexNibble(Lower(b)) == HexNibble(b)
  {
  }

  lemma HexShift(v: nat, d: nat, n: nat)
    requires d < 16
    ensures HexDigits(16 * v + d, n + 1) == HexDigits(v, n) + [HexDigit(d)]
  {
    assert (16 * v + d) / 16 == v && (16 * v + d) % 16 == d;
  }

  lemma {:induction false} HexCanonical(s: Bytes)
    requires AllHex(s)
    ensures HexDigits(HexValue(s), |s|) == LowerAll(s)
  {
    hide HexDigits, HexDigit;
    if s != [] {
      var n := |s| - 1;
      var v, d := HexValue(s[..n]), HexNibble(s[n]).value;
      HexCanonical(s[..n]);
      NibbleIff(s[n]);
      HexShift(v, d, n);
    } else {
      NoHex();
    }
  }

  lemma NoHex()
    ensures HexDigits(0, 0) == []
  {
  }

  lemma HexOfLower(s: Bytes)
    ensures AllHex(s) <==> AllHex(LowerAll(s))
  {
    hide LowerAll;
    forall i | 0 <= i < |s|
      ensures HexNibble(LowerAll(s)[i]) == HexNibble(s[i])
    {
      NibbleIff(s[i]);
    }
  }

  lemma FromHexIff(s: Bytes, d: Digest)
    ensures FromHex(s) == Some(d) <==> HexSpells(s, d)
  {
    hide HexDigits, HexValue, Pow16, LowerAll, AllHex;
    HexSpace();
    HexOfLower(s);
    if |s| == 64 && AllHex(s) {
      HexCanonical(s);
      FromHexToHex(d);
      HexValueOfLower(s, d);
    }
  }

  lemma HexValueOfLower(s: Bytes, d: Digest)
    requires |s| == 64 && AllHex(s)
    ensures LowerAll(s) == ToHex(d) <==> HexValue(s) == d as nat
  {
    hide HexDigits, HexValue, Pow16, LowerAll;
    HexSpace();
    HexCanonical(s);
    HexRoundTrip(d as nat, 64);
    HexRoundTrip(HexValue(s), 64);
  }

  lemma FieldIff(s: Bytes, a: Bytes, b: Bytes)
    ensures Field(s) == Some((a, b)) <==> TAB !in a && s == a + [TAB] + b
  {
    hide Find;
    if TAB !in a && s == a + [TAB] + b {
      FieldOf(a, b);
    }
    var i := Find(s, TAB);
    assert i < |s| ==> s == s[..i] + [TAB] + s[i + 1..];
  }

  lemma HexNoTab(s: Bytes, d: Digest)
    requires HexSpells(s, d)
    ensures TAB !in s
  {
    FromHexIff(s, d);
    hide HexSpells, HexValue;
    HexHasNo(s, TAB);
  }

  lemma UnsignedNoTab(s: Bytes, n: nat)
    requires Unsigned(s, n)
    ensures TAB !in s
  {
    hide Unsigned;
    ParseUnsignedIff(s, n, n);
    var body := if s[0] == PLUS then s[1..] else s;
    DigitsHaveNo(body, TAB);
    assert s == [s[0]] + s[1..];
  }

  /** Hash, pack, offset and length between tabs, each in range. */
  ghost predicate IndexLine(line: Bytes, e: IndexEntry) {
    exists a, b, c, d ::
      && HexSpells(a, e.hash) && Unsigned(b, e.loc.pack) && Unsigned(c, e.loc.offset) && Unsigned(d, e.loc.length)
      && line == a + [TAB] + (b + [TAB] + (c + [TAB] + d))
  }

  lemma ParsedIsLine(line: Bytes, e: IndexEntry)
    requires ParseEntry(line) == Some(e)
    ensures Representable(e.loc) && IndexLine(line, e)
  {
    hide Field, FromHex, ParseUnsigned, HexSpells, Unsigned;
    var (a, rest1) := Field(line).value;
    var (b, rest2) := Field(rest1).value;
    var (c, d) := Field(rest2).value;
    FieldIff(line, a, rest1);
    FieldIff(rest1, b, rest2);
    FieldIff(rest2, c, d);
    FieldsIff(a, b, c, d, e);
    assert HexSpells(a, e.hash) && Unsigned(b, e.loc.pack) && Unsigned(c, e.loc.offset) && Unsigned(d, e.loc.length);
  }

  lemma LineIsParsed(a: Bytes, b: Bytes, c: Bytes, d: Bytes, e: IndexEntry)
    requires Representable(e.loc)
    requires HexSpells(a, e.hash) && Unsigned(b, e.loc.pack) && Unsigned(c, e.loc.offset) && Unsigned(d, e.loc.length)
    ensures ParseEntry(a + [TAB] + (b + [TAB] + (c + [TAB] + d))) == Some(e)
  {
    hide Field, FromHex, ParseUnsigned, HexSpells, Unsigned;
    HexNoTab(a, e.hash);
    UnsignedNoTab(b, e.loc.pack);
    UnsignedNoTab(c, e.loc.offset);
    FieldOf(a, b + [TAB] + (c + [TAB] + d));
    FieldOf(b, c + [TAB] + d);
    FieldOf(c, d);
    FieldsIff(a, b, c, d, e);
  }

  /** The parser of index lines accepts exactly the index lines. */
  lemma ParseEntryIff(line: Bytes, e: IndexEntry)
    ensures ParseEntry(line) == Some(e) <==> Representable(e.loc) && IndexLine(line, e)
  {
    hide ParseEntry, HexSpells, Unsigned;
    if ParseEntry(line) == Some(e) {
      ParsedIsLine(line, e);
    }
    if Representable(e.loc) && IndexLine(line, e) {
      var a, b, c, d :| && HexSpells(a, e.hash) && Unsigned(b, e.loc.pack) && Unsigned(c, e.loc.offset)
        && Unsigned(d, e.loc.length) && line == a + [TAB] + (b + [TAB] + (c + [TAB] + d));
      LineIsParsed(a, b, c, d, e);
    }
  }

  lemma FieldsIff(a: Bytes, b: Bytes, c: Bytes, d: Bytes, e: IndexEntry)
    ensures FromHex(a) == Some(e.hash) <==> HexSpells(a, e.hash)
    ensures ParseUnsigned(b, U32_MAX) == Some(e.loc.pack) <==> Unsigned(b, e.loc.pack) && e.loc.pack <= U32_MAX
    ensures ParseUnsigned(c, U64_MAX) == Some(e.loc.offset) <==> Unsigned(c, e.loc.offset) && e.loc.offset <= U64_MAX
    ensures ParseUnsigned(d, U32_MAX) == Some(e.loc.length) <==> Unsigned(d, e.loc.length) && e.loc.length <= U32_MAX
  {
    FromHexIff(a, e.hash);
    ParseUnsignedIff(b, U32_MAX, e.loc.pack);
    ParseUnsignedIff(c, U64_MAX, e.loc.offset);
    ParseUnsignedIff(d, U32_MAX, e.loc.length);
  }

  /** Hash, offset and length between tabs, and then the path, whatever it is. */
  ghost predicate RefLine(line: Bytes, r: Reference) {
    exists a, b, c ::
      && HexSpells(a, r.hash) && Unsigned(b, r.loc.offset) && Unsigned(c, r.loc.length)
      && line == a + [TAB] + (b + [TAB] + (c + [TAB] + r.loc.path))
  }

  /** The parser of reference lines accepts exactly the reference lines. */
  lemma ParseRefIff(line: Bytes, r: Reference)
    ensures ParseRef(line) == Some(r) <==> Referable(r) && RefLine(line, r)
  {
    hide Field, FromHex, ParseUnsigned, HexSpells, Unsigned;
    if ParseRef(line) == Some(r) {
      var (a, rest1) := Field(line).value;
      var (b, rest2) := Field(rest1).value;
      var (c, path) := Field(rest2).value;
      FieldIff(line, a, rest1);
      FieldIff(rest1, b, rest2);
      FieldIff(rest2, c, path);
      RefFieldsIff(a, b, c, r);
      assert HexSpells(a, r.hash) && Unsigned(b, r.loc.offset) && Unsigned(c, r.loc.length);
    }
    if Referable(r) && RefLine(line, r) {
      var a, b, c :| && HexSpells(a, r.hash) && Unsigned(b, r.loc.offset) && Unsigned(c, r.loc.length)
        && line == a + [TAB] + (b + [TAB] + (c + [TAB] + r.loc.path));
      HexNoTab(a, r.hash);
      UnsignedNoTab(b, r.loc.offset);
      UnsignedNoTab(c, r.loc.length);
      FieldIff(line, a, b + [TAB] + (c + [TAB] + r.loc.path));
      FieldIff(b + [TAB] + (c + [TAB] + r.loc.path), b, c + [TAB] + r.loc.path);
      FieldIff(c + [TAB] + r.loc.path, c, r.loc.path);
      RefFieldsIff(a, b, c, r);
    }
  }

  lemma RefFieldsIff(a: Bytes, b: Bytes, c: Bytes, r: Reference)
    ensures FromHex(a) == Some(r.hash) <==> HexSpells(a, r.hash)
    ensures ParseUnsigned(b, U64_MAX) == Some(r.loc.offset) <==> Unsigned(b, r.loc.offset) && r.loc.offset <= U64_MAX
    ensures ParseUnsigned(c, U32_MAX) == Some(r.loc.length) <==> Unsigned(c, r.loc.length) && r.loc.length <= U32_MAX
  {
    FromHexIff(a, r.hash);
    ParseUnsignedIff(b, U64_MAX, r.loc.offset);
    ParseUnsignedIff(c, U32_MAX, r.loc.length);
  }

  // ---- whole files ----

  /** `text` is `line` ended as `str::lines` understands it, by a newline or a return and a newline. */
  ghost predicate Ended(line: Bytes, text: Bytes) {
    && NEWLINE !in line
    && ( || (text == line + [NEWLINE] && (line != [] ==> line[|line| - 1] != RETURN))
         || text == line + [RETURN] + [NEWLINE])
  }

  lemma FirstLineEnded(line: Bytes, text: Bytes)
    requires Ended(line, text)
    ensures FirstLine(text) == (line, [])
  {
    hide Find;
    if text == line + [NEWLINE] {
      EmptyTail(text);
      FindAfter(line, NEWLINE, []);
      assert text[..|line|] == line;
    } else {
      EmptyTail(text);
      FindAfter(line + [RETURN], NEWLINE, []);
      assert text[..|line|] == line;
    }
  }

  /** Text appended behind whole lines adds exactly the entries it spells by itself. */
  lemma {:induction false} EntriesAppend(a: Bytes, more: Bytes)
    requires WholeLines(a)
    ensures Entries(a + more) == Entries(a) + Entries(more)
    decreases |a|
  {
    hide ParseEntry, FirstLine;
    if a == [] {
      EmptyConcat(more);
      EmptyConcat(Entries(more));
    } else {
      var (line, rest) := FirstLine(a);
      FirstLineInPrefix(a, more);
      EntriesAppend(rest, more);
      assert a + more != [];
      if ParseEntry(line).Some? {
        ConcatAssoc([ParseEntry(line).value], Entries(rest), Entries(more));
      }
    }
  }

  /** One more line of any text adds to what the index spells the entry it is an index line for, and
      nothing if it is none: a malformed line hides no other. */
  lemma IndexLineAdds(head: Bytes, line: Bytes, text: Bytes, e: IndexEntry)
    requires WholeLines(head) && Ended(line, text)
    ensures Entries(head + text) == Entries(head) + [e] <==> Representable(e.loc) && IndexLine(line, e)
    ensures Entries(head + text) == Entries(head) <==>
      !exists e': IndexEntry :: Representable(e'.loc) && IndexLine(line, e')
  {
    hide ParseEntry, IndexLine, Representable;
    FirstLineEnded(line, text);
    EntriesAppend(head, text);
    ParseEntryIff(line, e);
    assert Entries(text) == if ParseEntry(line).Some? then [ParseEntry(line).value] else [];
    if ParseEntry(line).Some? {
      ParseEntryIff(line, ParseEntry(line).value);
      assert Representable(ParseEntry(line).value.loc) && IndexLine(line, ParseEntry(line).value);
      assert (Entries(head) + Entries(text))[|Entries(head)|..] == Entries(text);
    } else {
      forall e': IndexEntry
        ensures !(Representable(e'.loc) && IndexLine(line, e'))
      {
        ParseEntryIff(line, e');
      }
    }
  }

  /** The same for the references. */
  lemma RefLineAdds(head: Bytes, line: Bytes, text: Bytes, r: Reference)
    requires WholeLines(head) && Ended(line, text)
    ensures References(head + text) == References(head) + [r] <==> Referable(r) && RefLine(line, r)
    ensures References(head + text) == References(head) <==>
      !exists r': Reference :: Referable(r') && RefLine(line, r')
  {
    hide ParseRef, RefLine, Referable;
    FirstLineEnded(line, text);
    ReferencesAppend(head, text);
    ParseRefIff(line, r);
    assert References(text) == if ParseRef(line).Some? then [ParseRef(line).value] else [];
    if ParseRef(line).Some? {
      ParseRefIff(line, ParseRef(line).value);
      assert Referable(ParseRef(line).value) && RefLine(line, ParseRef(line).value);
      assert (References(head) + References(text))[|References(head)|..] == References(text);
    } else {
      forall r': Reference
        ensures !(Referable(r') && RefLine(line, r'))
      {
        ParseRefIff(line, r');
      }
    }
  }
}
