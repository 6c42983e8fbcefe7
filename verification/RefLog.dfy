/** The text of `refs.tsv` (crates/np2ptp-store/src/lib.rs): one line per chunk left in place in a
    file the store does not own. Unlike an index line, a reference line holds arbitrary text, the
    path of that file. */
module RefLog {
  import opened Basics
  import opened Text
  import opened IndexLog

  /** A byte range of a source file. */
  datatype RefLoc = RefLoc(path: Bytes, offset: nat, length: nat)
  datatype Reference = Reference(hash: Digest, loc: RefLoc)

  /** The offset is a `u64`, the length a `u32`. */
  predicate Referable(r: Reference) {
    r.loc.offset <= U64_MAX && r.loc.length <= U32_MAX
  }

  function RefText(r: Reference): Bytes {
    ToHex(r.hash) + [TAB] + (Decimal(r.loc.offset) + [TAB] + (Decimal(r.loc.length) + [TAB] + r.loc.path))
  }

  function FormatRef(r: Reference): Bytes { RefText(r) + [NEWLINE] }

  function ParseRef(line: Bytes): Option<Reference> {
    match Field(line)
    case None => None
    case Some((hash, rest1)) =>
      match Field(rest1)
      case None => None
      case Some((offset, rest2)) =>
        match Field(rest2)
        case None => None
        case Some((length, path)) =>
          match (FromHex(hash), ParseUnsigned(offset, U64_MAX), ParseUnsigned(length, U32_MAX))
          case (Some(d), Some(o), Some(l)) => Some(Reference(d, RefLoc(path, o, l)))
          case _ => None
  }

  /** Every reference the lines of `text` spell, malformed lines skipped. */
  function References(text: Bytes): seq<Reference>
    decreases |text|
  {
    if text == [] then []
    else
      var (line, rest) := FirstLine(text);
      match ParseRef(line)
      case None => References(rest)
      case Some(r) => [r] + References(rest)
  }

  function InsertRefs(refs: seq<Reference>, known: map<Digest, RefLoc>): map<Digest, RefLoc> {
    if refs == [] then known else InsertRefs(refs[1..], known[refs[0].hash := refs[0].loc])
  }

  // ---- whole lines ----

  lemma {:induction false} FindInPrefix(a: Bytes, b: Byte, more: Bytes)
    requires b in a
    ensures Find(a + more, b) == Find(a, b) < |a|
  {
    assert (a + more)[1..] == a[1..] + more;
    if a[0] != b {
      FindInPrefix(a[1..], b, more);
    }
  }

  lemma FirstLineInPrefix(a: Bytes, more: Bytes)
    requires a != [] && WholeLines(a)
    ensures var (line, rest) := FirstLine(a);
      FirstLine(a + more) == (line, rest + more) && WholeLines(rest)
  {
    hide Find;
    FindInPrefix(a, NEWLINE, more);
    var i := Find(a, NEWLINE);
    assert (a + more)[..i] == a[..i] && (a + more)[i + 1..] == a[i + 1..] + more;
    assert i > 0 ==> (a + more)[..i - 1] == a[..i - 1];
  }

  /** Text appended behind whole lines adds exactly the references it spells by itself. */
  lemma {:induction false} ReferencesAppend(a: Bytes, more: Bytes)
    requires WholeLines(a)
    ensures References(a + more) == References(a) + References(more)
    decreases |a|
  {
    hide ParseRef, FirstLine;
    if a == [] {
      EmptyConcat(more);
      EmptyConcat(References(more));
    } else {
      var (line, rest) := FirstLine(a);
      FirstLineInPrefix(a, more);
      ReferencesAppend(rest, more);
      assert a + more != [];
      if ParseRef(line).Some? {
        ConcatAssoc([ParseRef(line).value], References(rest), References(more));
      }
    }
  }

  lemma {:induction false} InsertRefsAppend(a: seq<Reference>, b: seq<Reference>, known: map<Digest, RefLoc>)
    ensures InsertRefs(a + b, known) == InsertRefs(b, InsertRefs(a, known))
  {
    if a == [] {
      EmptyConcat(b);
    } else {
      assert (a + b)[1..] == a[1..] + b;
      InsertRefsAppend(a[1..], b, known[a[0].hash := a[0].loc]);
    }
  }

  // ---- one reference ----

  /** The path a reader of the line sees: cut at the first newline, less one return before it. */
  function LinePath(path: Bytes): Bytes {
    var i := Find(path, NEWLINE);
    if i > 0 && path[i - 1] == RETURN then path[..i - 1] else path[..i]
  }

  /** A path the line format can carry. */
  predicate CleanPath(path: Bytes) {
    NEWLINE !in path && (path != [] ==> path[|path| - 1] != RETURN)
  }

  lemma ParseRefText(r: Reference)
    requires Referable(r)
    ensures ParseRef(RefText(r)) == Some(r)
  {
    hide Find, FromHex, ToHex, ParseUnsigned, Decimal, AllHex, AllDigits, Field;
    var hash, offset, length := ToHex(r.hash), Decimal(r.loc.offset), Decimal(r.loc.length);
    HexHasNo(hash, TAB);
    DigitsHaveNo(offset, TAB);
    DigitsHaveNo(length, TAB);
    FieldOf(hash, offset + [TAB] + (length + [TAB] + r.loc.path));
    FieldOf(offset, length + [TAB] + r.loc.path);
    FieldOf(length, r.loc.path);
    FromHexToHex(r.hash);
    ParseDecimal(r.loc.offset, U64_MAX);
    ParseDecimal(r.loc.length, U32_MAX);
  }

  /** What precedes the path in a line. */
  function RefHead(r: Reference): Bytes {
    ToHex(r.hash) + [TAB] + (Decimal(r.loc.offset) + [TAB] + (Decimal(r.loc.length) + [TAB]))
  }

  lemma RefHeadPlain(r: Reference)
    ensures NEWLINE !in RefHead(r) && RefHead(r)[|RefHead(r)| - 1] == TAB
    ensures forall path :: RefText(r.(loc := r.loc.(path := path))) == RefHead(r) + path
  {
    hide ToHex, Decimal, DigitValue;
    HexHasNo(ToHex(r.hash), NEWLINE);
    DigitsHaveNo(Decimal(r.loc.offset), NEWLINE);
    DigitsHaveNo(Decimal(r.loc.length), NEWLINE);
    forall path
      ensures RefText(r.(loc := r.loc.(path := path))) == RefHead(r) + path
    {
      var hash, offset, length := ToHex(r.hash), Decimal(r.loc.offset), Decimal(r.loc.length);
      ConcatAssoc(length, [TAB], path);
      ConcatAssoc(offset + [TAB], length + [TAB], path);
      ConcatAssoc(hash + [TAB], offset + [TAB] + (length + [TAB]), path);
    }
  }

  lemma {:induction false} FindBehind(head: Bytes, b: Byte, tail: Bytes)
    requires b !in head
    ensures Find(head + tail, b) == |head| + Find(tail, b)
  {
    if head == [] {
      EmptyConcat(tail);
    } else {
      assert (head + tail)[1..] == head[1..] + tail;
      FindBehind(head[1..], b, tail);
    }
  }

  lemma FindTerminator(path: Bytes)
    ensures Find(path + [NEWLINE], NEWLINE) == Find(path, NEWLINE)
  {
    if Find(path, NEWLINE) < |path| {
      FindInPrefix(path, NEWLINE, [NEWLINE]);
    } else {
      assert path[..|path|] == path;
      FindAfter(path, NEWLINE, []);
      EmptyTail(path + [NEWLINE]);
    }
  }

  lemma FirstLineCut(head: Bytes, end: Bytes, i: nat)
    requires head != [] && head[|head| - 1] == TAB && i < |end| && Find(head + end, NEWLINE) == |head| + i
    ensures FirstLine(head + end)
      == (head + (if i > 0 && end[i - 1] == RETURN then end[..i - 1] else end[..i]), end[i + 1..])
  {
    hide Find;
    SliceBehind(head, end, i);
    SliceBehind(head, end, i + 1);
    if i > 0 {
      SliceBehind(head, end, i - 1);
    }
  }

  lemma FirstLineBehind(head: Bytes, path: Bytes)
    requires NEWLINE !in head && head != [] && head[|head| - 1] == TAB
    ensures FirstLine(head + (path + [NEWLINE]))
      == (head + LinePath(path), (path + [NEWLINE])[Find(path, NEWLINE) + 1..])
  {
    hide Find, FirstLine;
    var end, i := path + [NEWLINE], Find(path, NEWLINE);
    FindTerminator(path);
    FindBehind(head, NEWLINE, end);
    FirstLineCut(head, end, i);
    assert end[..i] == path[..i];
    assert i > 0 ==> end[..i - 1] == path[..i - 1];
  }

  lemma SliceBehind(a: Bytes, b: Bytes, i: nat)
    requires i <= |b|
    ensures (a + b)[..|a| + i] == a + b[..i]
    ensures (a + b)[|a| + i..] == b[i..]
  {
  }

  /** The line an added reference starts is a reference to the same chunk, at the path the line
      format leaves of it. */
  lemma FirstLineOfRef(r: Reference)
    ensures FirstLine(FormatRef(r)).0 == RefText(r.(loc := r.loc.(path := LinePath(r.loc.path))))
    ensures NEWLINE !in r.loc.path ==> FirstLine(FormatRef(r)).1 == []
  {
    var head, path := RefHead(r), r.loc.path;
    RefHeadPlain(r);
    assert r == r.(loc := r.loc.(path := path));
    hide RefText, RefHead, Find, LinePath, FirstLine;
    ConcatAssoc(head, path, [NEWLINE]);
    FirstLineBehind(head, path);
  }

  /** A newline in the path cannot make the line lose its chunk, only its place. */
  lemma AddedReference(r: Reference)
    requires Referable(r)
    ensures var rs := References(FormatRef(r));
      rs != [] && rs[0] == r.(loc := r.loc.(path := LinePath(r.loc.path)))
    ensures NEWLINE !in r.loc.path ==> |References(FormatRef(r))| == 1
  {
    FirstLineOfRef(r);
    ParseRefText(r.(loc := r.loc.(path := LinePath(r.loc.path))));
    hide FirstLine, ParseRef, RefText, LinePath;
  }

  lemma LinePathIff(path: Bytes)
    ensures LinePath(path) == path <==> CleanPath(path)
  {
    hide Find;
    var i := Find(path, NEWLINE);
    if i == |path| {
      assert path[..i] == path;
    }
  }

  /** A reference is read back as written if and only if its path has no newline in it and no
      carriage return at its end. */
  lemma ReferenceReadsBackIff(r: Reference)
    requires Referable(r)
    ensures References(FormatRef(r)) == [r] <==> CleanPath(r.loc.path)
  {
    AddedReference(r);
    LinePathIff(r.loc.path);
    hide LinePath, References, FormatRef, CleanPath;
    assert CleanPath(r.loc.path) ==> NEWLINE !in r.loc.path by { CleanHasNoNewline(r.loc.path); }
    var rs := References(FormatRef(r));
    assert |rs| == 1 ==> rs == [rs[0]];
  }

  lemma CleanHasNoNewline(path: Bytes)
    ensures CleanPath(path) ==> NEWLINE !in path
  {
  }
}
