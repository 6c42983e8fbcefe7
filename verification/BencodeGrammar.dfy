/** What bencoding is (BEP 3, "bencoding"), without reference to the decoder, and that the decoder
    accepts exactly that, within its depth and number ranges. */
module BencodeGrammar {
  import opened Basics
  import opened Text
  import opened Numerals
  import opened Bencode
  import opened BencodeTheorems

  /** A length, a colon, and exactly that many bytes. */
  ghost predicate SpellsBytes(b: Bytes, s: Bytes) {
    exists k: nat :: k < |s| && Unsigned(s[..k], |b|) && s[k] == COLON && s[k + 1..] == b
  }

  /** The byte string `s` spells the value: integers may carry a sign and leading zeros, lengths
      leading zeros, and the length of a key a plus. */
  ghost predicate Spells(v: Value, s: Bytes)
    decreases v, 1
  {
    |s| >= 2 &&
    match v
    case Int(n) => s[0] == LOWER_I && s[|s| - 1] == LOWER_E && Signed(s[1..|s| - 1], n)
    case ByteString(b) => IsDigit(s[0]) && SpellsBytes(b, s)
    case List(items) => s[0] == LOWER_L && s[|s| - 1] == LOWER_E && SpellsItems(items, s[1..|s| - 1])
    case Dict(entries) => s[0] == LOWER_D && s[|s| - 1] == LOWER_E && SpellsEntries(entries, s[1..|s| - 1])
  }

  ghost predicate SpellsItems(items: seq<Value>, s: Bytes)
    decreases items, 0
  {
    if items == [] then s == []
    else exists k: nat :: k <= |s| && Spells(items[0], s[..k]) && SpellsItems(items[1..], s[k..])
  }

  ghost predicate SpellsEntries(entries: seq<Entry>, s: Bytes)
    decreases entries, 0
  {
    if entries == [] then s == []
    else exists k: nat :: k <= |s| && SpellsEntry(entries[0], s[..k]) && SpellsEntries(entries[1..], s[k..])
  }

  ghost predicate SpellsEntry(entry: Entry, s: Bytes)
    decreases entry, 2
  {
    exists k: nat :: k <= |s| && SpellsBytes(entry.key, s[..k]) && Spells(entry.value, s[k..])
  }

  // ---- byte strings ----

  lemma LengthHasNoColon(s: Bytes, n: nat)
    requires Unsigned(s, n)
    ensures s != [] && COLON !in s && (IsDigit(s[0]) || s[0] == PLUS) && s[0] != LOWER_E
  {
    hide Numeral, DigitValue;
    NumeralIff(s, n);
    if s != [] && s[0] == PLUS {
      NumeralIff(s[1..], n);
      assert s == [s[0]] + s[1..];
    }
  }

  /** The decoder of byte strings accepts exactly the spelled ones, and cuts behind them. */
  lemma DecodeBytesIff(input: Bytes, b: Bytes, rest: Bytes)
    requires |input| <= U64_MAX
    ensures DecodeByteString(input) == Ok((b, rest)) <==> BytesThen(input, b, rest)
  {
    if DecodeByteString(input) == Ok((b, rest)) {
      DecodeBytesSound(input, b, rest);
    }
    if BytesThen(input, b, rest) {
      DecodeBytesComplete(input, b, rest);
    }
  }

  /** The input is a spelling of `b`, and then `rest`. */
  ghost predicate BytesThen(input: Bytes, b: Bytes, rest: Bytes) {
    |rest| <= |input| && input[|input| - |rest|..] == rest && SpellsBytes(b, input[..|input| - |rest|])
  }

  lemma DecodeBytesSound(input: Bytes, b: Bytes, rest: Bytes)
    requires DecodeByteString(input) == Ok((b, rest))
    ensures BytesThen(input, b, rest)
  {
    hide Unsigned, ParseUnsigned, Find;
    var colon := Find(input, COLON);
    ParseUnsignedIff(input[..colon], U64_MAX, |b|);
    var end := colon + 1 + |b|;
    var s := input[..end];
    assert s[..colon] == input[..colon] && s[colon] == COLON && s[colon + 1..] == b;
  }

  lemma DecodeBytesComplete(input: Bytes, b: Bytes, rest: Bytes)
    requires |input| <= U64_MAX && BytesThen(input, b, rest)
    ensures DecodeByteString(input) == Ok((b, rest))
  {
    hide Unsigned, ParseUnsigned, Find;
    var s := input[..|input| - |rest|];
    var k: nat :| k < |s| && Unsigned(s[..k], |b|) && s[k] == COLON && s[k + 1..] == b;
    LengthHasNoColon(s[..k], |b|);
    Rejoin(input, s[..k], b, rest);
    FindAfter(s[..k], COLON, b + rest);
    ParseUnsignedIff(s[..k], U64_MAX, |b|);
  }

  lemma Rejoin(input: Bytes, length: Bytes, b: Bytes, rest: Bytes)
    requires |input| == |length| + 1 + |b| + |rest| && input[|input| - |rest|..] == rest
    requires input[..|input| - |rest|][..|length|] == length && input[|length|] == COLON
    requires input[..|input| - |rest|][|length| + 1..] == b
    ensures input == length + [COLON] + (b + rest) && input[..|length|] == length
    ensures input[|length| + 1..|length| + 1 + |b|] == b && input[|length| + 1 + |b|..] == rest
  {
  }

  // ---- values ----

  lemma SpellsStarts(v: Value, s: Bytes)
    requires Spells(v, s)
    ensures s != [] && s[0] != LOWER_E
  {
  }

  /** The input is a spelling of `v`, and then `rest`. */
  ghost predicate ValueThen(input: Bytes, v: Value, rest: Bytes) {
    |rest| <= |input| && input[|input| - |rest|..] == rest && Spells(v, input[..|input| - |rest|])
  }

  ghost predicate ItemsThen(input: Bytes, items: seq<Value>, rest: Bytes) {
    && |rest| < |input| && input[|input| - |rest|..] == rest && input[|input| - |rest| - 1] == LOWER_E
    && SpellsItems(items, input[..|input| - |rest| - 1])
  }

  ghost predicate EntriesThen(input: Bytes, entries: seq<Entry>, rest: Bytes) {
    && |rest| < |input| && input[|input| - |rest|..] == rest && input[|input| - |rest| - 1] == LOWER_E
    && SpellsEntries(entries, input[..|input| - |rest| - 1])
  }

  lemma IntSound(input: Bytes, n: int, rest: Bytes)
    requires input != [] && input[0] == LOWER_I && DecodeInt(input) == Ok((Int(n), rest))
    ensures ValueThen(input, Int(n), rest) && I64_MIN <= n <= I64_MAX
  {
    hide Signed, ParseI64, Find;
    var tail := input[1..];
    var end := Find(tail, LOWER_E);
    ParseI64Iff(tail[..end], n);
    var s := input[..end + 2];
    assert s[1..|s| - 1] == tail[..end];
    assert input[|input| - |rest|..] == rest && input[..|input| - |rest|] == s;
  }

  lemma IntComplete(input: Bytes, n: int, rest: Bytes)
    requires ValueThen(input, Int(n), rest) && I64_MIN <= n <= I64_MAX
    ensures input[0] == LOWER_I && DecodeInt(input) == Ok((Int(n), rest))
  {
    hide Signed, ParseI64, Find;
    var s := input[..|input| - |rest|];
    var t := s[1..|s| - 1];
    NumeralBytes(t, n, LOWER_E);
    assert input[1..] == t + [LOWER_E] + rest;
    FindAfter(t, LOWER_E, rest);
    assert (t + [LOWER_E] + rest)[..|t|] == t && (t + [LOWER_E] + rest)[|t| + 1..] == rest;
    ParseI64Iff(t, n);
  }

  lemma IntIsInt(input: Bytes)
    requires input != [] && input[0] == LOWER_I && DecodeInt(input).Ok?
    ensures DecodeInt(input).value.0.Int?
  {
  }

  /** Whatever the decoder accepts is a spelling of the value it returns, in range and not too deep. */
  lemma {:induction false} DecodeSound(input: Bytes, depth: nat)
    requires Decode(input, depth).Ok?
    ensures var (v, rest) := Decode(input, depth).value;
      ValueThen(input, v, rest) && Fits(v) && depth + Height(v) <= MAX_DEPTH
    decreases |input|, 1
  {
    hide DecodeInt, DecodeByteString, DecodeItems, DecodeEntries, SpellsItems, SpellsEntries, SpellsBytes, Signed;
    var (v, rest) := Decode(input, depth).value;
    if input[0] == LOWER_I {
      IntIsInt(input);
      IntSound(input, v.n, rest);
    } else if input[0] == LOWER_L {
      ItemsSound(input[1..], depth);
      WrapItems(input, v.items, rest);
    } else if input[0] == LOWER_D {
      EntriesSound(input[1..], depth);
      WrapEntries(input, v.entries, rest);
    } else {
      DecodeBytesSound(input, v.bytes, rest);
      BytesNotShort(input[..|input| - |rest|], v.bytes);
    }
  }

  lemma BytesNotShort(s: Bytes, b: Bytes)
    requires SpellsBytes(b, s)
    ensures |s| >= 2 && (IsDigit(s[0]) || s[0] == PLUS)
  {
    hide Unsigned;
    var k: nat :| k < |s| && Unsigned(s[..k], |b|) && s[k] == COLON && s[k + 1..] == b;
    LengthHasNoColon(s[..k], |b|);
  }

  lemma WrapItems(input: Bytes, items: seq<Value>, rest: Bytes)
    requires input != [] && input[0] == LOWER_L && ItemsThen(input[1..], items, rest)
    ensures ValueThen(input, List(items), rest)
  {
    hide SpellsItems;
    var s := input[..|input| - |rest|];
    assert s[1..|s| - 1] == input[1..][..|input| - 1 - |rest| - 1];
    assert input[|input| - |rest|..] == input[1..][|input| - 1 - |rest|..];
  }

  lemma WrapEntries(input: Bytes, entries: seq<Entry>, rest: Bytes)
    requires input != [] && input[0] == LOWER_D && EntriesThen(input[1..], entries, rest)
    ensures ValueThen(input, Dict(entries), rest)
  {
    hide SpellsEntries;
    var s := input[..|input| - |rest|];
    assert s[1..|s| - 1] == input[1..][..|input| - 1 - |rest| - 1];
    assert input[|input| - |rest|..] == input[1..][|input| - 1 - |rest|..];
  }

  lemma {:induction false} ItemsSound(input: Bytes, depth: nat)
    requires DecodeItems(input, depth).Ok? && depth <= MAX_DEPTH
    ensures var (items, rest) := DecodeItems(input, depth).value;
      ItemsThen(input, items, rest) && FitItems(items) && depth + ItemsHeight(items) <= MAX_DEPTH
    decreases |input|, 2
  {
    hide Decode, Spells;
    if input[0] == LOWER_E {
      assert input[..0] == [];
    } else {
      DecodeSound(input, depth + 1);
      var (v, mid) := Decode(input, depth + 1).value;
      ItemsSound(mid, depth);
      var (items, rest) := DecodeItems(mid, depth).value;
      FirstItem(input, v, mid, items, rest);
    }
  }

  lemma FirstItem(input: Bytes, v: Value, mid: Bytes, items: seq<Value>, rest: Bytes)
    requires ValueThen(input, v, mid) && ItemsThen(mid, items, rest)
    ensures ItemsThen(input, [v] + items, rest)
  {
    hide Spells;
    var k := |input| - |mid|;
    var s := input[..|input| - |rest| - 1];
    assert s[..k] == input[..k] && s[k..] == mid[..|mid| - |rest| - 1];
    assert input[|input| - |rest|..] == mid[|mid| - |rest|..];
    assert ([v] + items)[1..] == items;
    assert Spells(([v] + items)[0], s[..k]) && SpellsItems(([v] + items)[1..], s[k..]);
  }

  lemma {:induction false} EntriesSound(input: Bytes, depth: nat)
    requires DecodeEntries(input, depth).Ok? && depth <= MAX_DEPTH
    ensures var (entries, rest) := DecodeEntries(input, depth).value;
      EntriesThen(input, entries, rest) && FitEntries(entries) && depth + EntriesHeight(entries) <= MAX_DEPTH
    decreases |input|, 2
  {
    hide Decode, Spells, DecodeByteString, SpellsBytes, SpellsEntry;
    if input[0] == LOWER_E {
      assert input[..0] == [];
    } else {
      var (key, afterKey) := DecodeByteString(input).value;
      DecodeBytesSound(input, key, afterKey);
      DecodeSound(afterKey, depth + 1);
      var (v, mid) := Decode(afterKey, depth + 1).value;
      EntriesSound(mid, depth);
      var (entries, rest) := DecodeEntries(mid, depth).value;
      JoinEntry(input, key, afterKey, v, mid);
      FirstEntry(input, Entry(key, v), mid, entries, rest);
    }
  }

  ghost predicate EntryThen(input: Bytes, e: Entry, rest: Bytes) {
    |rest| <= |input| && input[|input| - |rest|..] == rest && SpellsEntry(e, input[..|input| - |rest|])
  }

  lemma JoinEntry(input: Bytes, key: Bytes, afterKey: Bytes, v: Value, mid: Bytes)
    requires BytesThen(input, key, afterKey) && ValueThen(afterKey, v, mid)
    ensures EntryThen(input, Entry(key, v), mid)
  {
    hide Spells, SpellsBytes;
    var k := |input| - |afterKey|;
    var s := input[..|input| - |mid|];
    assert s[..k] == input[..k] && s[k..] == afterKey[..|afterKey| - |mid|];
    assert input[|input| - |mid|..] == afterKey[|afterKey| - |mid|..];
  }

  lemma FirstEntry(input: Bytes, e: Entry, mid: Bytes, entries: seq<Entry>, rest: Bytes)
    requires EntryThen(input, e, mid) && EntriesThen(mid, entries, rest)
    ensures EntriesThen(input, [e] + entries, rest)
  {
    hide SpellsEntry;
    var k := |input| - |mid|;
    var s := input[..|input| - |rest| - 1];
    assert s[..k] == input[..k] && s[k..] == mid[..|mid| - |rest| - 1];
    assert input[|input| - |rest|..] == mid[|mid| - |rest|..];
    assert ([e] + entries)[1..] == entries;
    assert SpellsEntry(([e] + entries)[0], s[..k]) && SpellsEntries(([e] + entries)[1..], s[k..]);
  }

  // ---- the other way ----

  /** Whatever spells a value in range and not too deep is accepted as that value. */
  lemma {:induction false} DecodeComplete(input: Bytes, v: Value, rest: Bytes, depth: nat)
    requires |input| <= U64_MAX && ValueThen(input, v, rest) && Fits(v) && depth + Height(v) <= MAX_DEPTH
    ensures Decode(input, depth) == Ok((v, rest))
    decreases v, 1
  {
    hide DecodeInt, DecodeByteString, DecodeItems, DecodeEntries, SpellsItems, SpellsEntries, SpellsBytes, Signed;
    var s := input[..|input| - |rest|];
    assert input[0] == s[0];
    match v
    case Int(n) =>
      IntComplete(input, n, rest);
    case ByteString(b) =>
      DecodeBytesComplete(input, b, rest);
    case List(items) =>
      Inner(input, rest);
      ItemsComplete(input[1..], items, rest, depth);
    case Dict(entries) =>
      Inner(input, rest);
      EntriesComplete(input[1..], entries, rest, depth);
  }

  /** What lies between the first byte of a value and the last. */
  lemma Inner(input: Bytes, rest: Bytes)
    requires |rest| + 2 <= |input| && input[|input| - |rest|..] == rest
    ensures var n, s := |input| - |rest|, input[..|input| - |rest|];
      && input[1..][..n - 2] == s[1..n - 1]
      && input[1..][n - 1..] == rest && input[1..][n - 2] == s[n - 1] && input[0] == s[0]
  {
  }

  lemma {:induction false} ItemsComplete(input: Bytes, items: seq<Value>, rest: Bytes, depth: nat)
    requires |input| <= U64_MAX && ItemsThen(input, items, rest) && FitItems(items)
    requires depth + ItemsHeight(items) <= MAX_DEPTH
    ensures DecodeItems(input, depth) == Ok((items, rest))
    decreases items, 0
  {
    hide Decode, Spells;
    var s := input[..|input| - |rest| - 1];
    if items == [] {
      assert input[1..] == rest;
    } else {
      var k: nat :| k <= |s| && Spells(items[0], s[..k]) && SpellsItems(items[1..], s[k..]);
      var mid := input[k..];
      assert input[..k] == s[..k] && mid[..|mid| - |rest| - 1] == s[k..] && mid[|mid| - |rest|..] == rest;
      SpellsStarts(items[0], s[..k]);
      assert input[0] == s[..k][0];
      DecodeComplete(input, items[0], mid, depth + 1);
      ItemsComplete(mid, items[1..], rest, depth);
      assert items == [items[0]] + items[1..];
    }
  }

  lemma {:induction false} EntriesComplete(input: Bytes, entries: seq<Entry>, rest: Bytes, depth: nat)
    requires |input| <= U64_MAX && EntriesThen(input, entries, rest) && FitEntries(entries)
    requires depth + EntriesHeight(entries) <= MAX_DEPTH
    ensures DecodeEntries(input, depth) == Ok((entries, rest))
    decreases entries, 0
  {
    hide Decode, Spells, DecodeByteString, SpellsBytes, SpellsEntry;
    var s := input[..|input| - |rest| - 1];
    if entries == [] {
      assert input[1..] == rest;
    } else {
      var e := entries[0];
      var k: nat :| k <= |s| && SpellsEntry(e, s[..k]) && SpellsEntries(entries[1..], s[k..]);
      var mid := input[k..];
      assert input[..k] == s[..k] && mid[..|mid| - |rest| - 1] == s[k..] && mid[|mid| - |rest|..] == rest;
      var afterKey := SplitEntry(input, e, mid);
      DecodeBytesComplete(input, e.key, afterKey);
      DecodeComplete(afterKey, e.value, mid, depth + 1);
      EntriesComplete(mid, entries[1..], rest, depth);
      assert entries == [Entry(e.key, e.value)] + entries[1..];
    }
  }

  lemma SplitEntry(input: Bytes, e: Entry, mid: Bytes) returns (afterKey: Bytes)
    requires EntryThen(input, e, mid)
    ensures BytesThen(input, e.key, afterKey) && ValueThen(afterKey, e.value, mid)
    ensures input != [] && input[0] != LOWER_E && |afterKey| <= |input|
  {
    hide Spells, SpellsBytes;
    var s := input[..|input| - |mid|];
    var k: nat :| k <= |s| && SpellsBytes(e.key, s[..k]) && Spells(e.value, s[k..]);
    afterKey := input[k..];
    CutAt(input, mid, k);
    BytesNotShort(s[..k], e.key);
  }

  lemma CutAt(input: Bytes, tail: Bytes, k: nat)
    requires |tail| <= |input| && input[|input| - |tail|..] == tail && k <= |input| - |tail|
    ensures var s, after := input[..|input| - |tail|], input[k..];
      && input[..|input| - |after|] == s[..k] && input[|input| - |after|..] == after
      && after[..|after| - |tail|] == s[k..] && after[|after| - |tail|..] == tail
  {
  }

  /** The decoder accepts exactly the spellings of values whose integers fit and that nest at most
      32 deep from where it stands, returns that value, and leaves exactly what follows. */
  lemma DecodeIff(input: Bytes, depth: nat, v: Value, rest: Bytes)
    requires |input| <= U64_MAX
    ensures Decode(input, depth) == Ok((v, rest)) <==>
      ValueThen(input, v, rest) && Fits(v) && depth + Height(v) <= 32
  {
    hide Decode, Spells, Fits, Height;
    if Decode(input, depth) == Ok((v, rest)) {
      DecodeSound(input, depth);
    }
    if ValueThen(input, v, rest) && Fits(v) && depth + Height(v) <= 32 {
      DecodeComplete(input, v, rest, depth);
    }
  }

  /** A spelling reads in one way only: no two values, and no two ends. */
  lemma OneReading(input: Bytes, v: Value, rest: Bytes, v': Value, rest': Bytes)
    requires |input| <= U64_MAX && ValueThen(input, v, rest) && ValueThen(input, v', rest')
    requires Fits(v) && Fits(v') && Height(v) <= 32 && Height(v') <= 32
    ensures v == v' && rest == rest'
  {
    hide Decode, Spells, Fits, Height;
    DecodeIff(input, 0, v, rest);
    DecodeIff(input, 0, v', rest');
  }

  // ---- the walk ----

  ghost predicate Skippable(es: seq<Entry>) {
    forall i :: 0 <= i < |es| ==> es[i].key != INFO && Fits(es[i].value) && Height(es[i].value) <= 32
  }

  /** Entries with other keys, then a key that spells `info`, and then `after`. */
  ghost predicate InfoThen(input: Bytes, es: seq<Entry>, after: Bytes) {
    exists k: nat :: k <= |input| && SpellsEntries(es, input[..k]) && BytesThen(input[k..], INFO, after)
  }

  lemma {:induction false} InfoSound(input: Bytes, total: nat) returns (es: seq<Entry>, after: Bytes)
    requires |input| <= total && InfoOffset(input, total).Ok?
    ensures Skippable(es) && InfoThen(input, es, after) && InfoOffset(input, total) == Ok(total - |after|)
    ensures |after| <= |input|
    decreases |input|
  {
    hide Decode, DecodeByteString, SpellsBytes, SpellsEntry, Spells, Fits, Height;
    var (key, afterKey) := DecodeByteString(input).value;
    DecodeBytesSound(input, key, afterKey);
    if key == INFO {
      es, after := [], afterKey;
      assert input[..0] == [] && input[0..] == input;
    } else {
      DecodeSound(afterKey, 0);
      var (v, mid) := Decode(afterKey, 0).value;
      es, after := InfoSound(mid, total);
      JoinEntry(input, key, afterKey, v, mid);
      var k: nat :| k <= |mid| && SpellsEntries(es, mid[..k]) && BytesThen(mid[k..], INFO, after);
      SkipEntry(input, Entry(key, v), mid, es, k);
      es := [Entry(key, v)] + es;
      assert SpellsEntries(es, input[..|input| - |mid| + k]) && BytesThen(input[|input| - |mid| + k..], INFO, after);
    }
  }

  lemma SkipEntry(input: Bytes, e: Entry, mid: Bytes, es: seq<Entry>, k: nat)
    requires EntryThen(input, e, mid) && k <= |mid| && SpellsEntries(es, mid[..k])
    ensures var n := |input| - |mid|; SpellsEntries([e] + es, input[..n + k]) && input[n + k..] == mid[k..]
  {
    hide SpellsEntry;
    var n := |input| - |mid|;
    var s := input[..n + k];
    assert s[..n] == input[..n] && s[n..] == mid[..k];
    assert ([e] + es)[1..] == es && ([e] + es)[0] == e;
    assert SpellsEntry(([e] + es)[0], s[..n]) && SpellsEntries(([e] + es)[1..], s[n..]);
  }

  lemma {:induction false} InfoComplete(input: Bytes, total: nat, es: seq<Entry>, after: Bytes)
    requires |input| <= U64_MAX && |input| <= total && Skippable(es) && InfoThen(input, es, after)
    ensures |after| <= total && InfoOffset(input, total) == Ok(total - |after|)
    decreases |es|
  {
    hide Decode, DecodeByteString, SpellsBytes, SpellsEntry, Spells, Fits, Height, InfoOffset, EntryThen, ValueThen;
    var k: nat :| k <= |input| && SpellsEntries(es, input[..k]) && BytesThen(input[k..], INFO, after);
    if es == [] {
      assert input[k..] == input;
      DecodeBytesComplete(input, INFO, after);
      BytesNotShort(input[..|input| - |after|], INFO);
      WalkEnds(input, total, after);
    } else {
      var e := es[0];
      var mid := FirstSkipped(input, es, after, k);
      var afterKey := SplitEntry(input, e, mid);
      DecodeBytesComplete(input, e.key, afterKey);
      DecodeComplete(afterKey, e.value, mid, 0);
      InfoComplete(mid, total, es[1..], after);
      WalkStep(input, total, e.key, afterKey, e.value, mid);
    }
  }

  lemma FirstSkipped(input: Bytes, es: seq<Entry>, after: Bytes, k: nat) returns (mid: Bytes)
    requires k <= |input| && es != [] && SpellsEntries(es, input[..k]) && BytesThen(input[k..], INFO, after)
    ensures EntryThen(input, es[0], mid) && InfoThen(mid, es[1..], after)
  {
    hide BytesThen, SpellsEntry;
    var s := input[..k];
    var j: nat :| j <= |s| && SpellsEntry(es[0], s[..j]) && SpellsEntries(es[1..], s[j..]);
    mid := input[j..];
    CutTwice(input, j, k);
    assert SpellsEntries(es[1..], mid[..k - j]) && BytesThen(mid[k - j..], INFO, after);
  }

  lemma WalkEnds(input: Bytes, total: nat, after: Bytes)
    requires |input| <= total && input != [] && input[0] != LOWER_E && DecodeByteString(input) == Ok((INFO, after))
    ensures |after| <= total && InfoOffset(input, total) == Ok(total - |after|)
  {
    hide Decode, DecodeByteString;
  }

  lemma CutTwice(input: Bytes, j: nat, k: nat)
    requires j <= k <= |input|
    ensures var s, mid := input[..k], input[j..];
      && input[..|input| - |mid|] == s[..j] && input[|input| - |mid|..] == mid
      && mid[..k - j] == s[j..] && mid[k - j..] == input[k..]
  {
  }

  lemma WalkStep(input: Bytes, total: nat, key: Bytes, afterKey: Bytes, v: Value, mid: Bytes)
    requires |input| <= total && input != [] && input[0] != LOWER_E && key != INFO
    requires DecodeByteString(input) == Ok((key, afterKey)) && Decode(afterKey, 0) == Ok((v, mid))
    ensures |mid| <= total && InfoOffset(input, total) == InfoOffset(mid, total)
  {
    hide Decode, DecodeByteString;
  }

  /** Where the walk stops: behind a key that spells `info`, before which come only whole entries
      with other keys, and nowhere else. */
  lemma InfoOffsetIff(input: Bytes, total: nat, p: nat)
    requires |input| <= U64_MAX && |input| <= total
    ensures InfoOffset(input, total) == Ok(p) <==>
      exists es, after :: Skippable(es) && InfoThen(input, es, after) && p == total - |after|
  {
    hide InfoOffset, Skippable, InfoThen;
    if InfoOffset(input, total) == Ok(p) {
      var es, after := InfoSound(input, total);
    }
    forall es, after | Skippable(es) && InfoThen(input, es, after) && p == total - |after|
      ensures InfoOffset(input, total) == Ok(p)
    {
      InfoComplete(input, total, es, after);
    }
  }
}
