/** Round trip of the bencode printer and decoder, and correctness of the `info` span. */
module BencodeTheorems {
  import opened Basics
  import opened Text
  import opened Bencode

  // ---- printer ----

  function EncodeBytes(b: Bytes): (s: Bytes)
    ensures s != [] && IsDigit(s[0])
  {
    assert IsDigit(Decimal(|b|)[0]);
    Decimal(|b|) + [COLON] + b
  }

  function Encode(v: Value): (s: Bytes)
    ensures s != [] && s[0] != LOWER_E
    decreases v, 1
  {
    match v
    case Int(n) => [LOWER_I] + SignedDecimal(n) + [LOWER_E]
    case ByteString(b) => EncodeBytes(b)
    case List(items) => [LOWER_L] + EncodeItems(items) + [LOWER_E]
    case Dict(entries) => [LOWER_D] + EncodeEntries(entries) + [LOWER_E]
  }

  function EncodeItems(items: seq<Value>): Bytes
    decreases items, 0
  {
    if items == [] then [] else Encode(items[0]) + EncodeItems(items[1..])
  }

  function EncodeEntries(entries: seq<Entry>): Bytes
    decreases entries, 0
  {
    if entries == [] then []
    else EncodeBytes(entries[0].key) + Encode(entries[0].value) + EncodeEntries(entries[1..])
  }

  /** Integers fit `i64`, everywhere in the value. */
  predicate Fits(v: Value)
    decreases v, 1
  {
    match v
    case Int(n) => I64_MIN <= n <= I64_MAX
    case ByteString(_) => true
    case List(items) => FitItems(items)
    case Dict(entries) => FitEntries(entries)
  }

  predicate FitItems(items: seq<Value>)
    decreases items, 0
  {
    items == [] || (Fits(items[0]) && FitItems(items[1..]))
  }

  predicate FitEntries(entries: seq<Entry>)
    decreases entries, 0
  {
    entries == [] || (Fits(entries[0].value) && FitEntries(entries[1..]))
  }

  function Max(a: nat, b: nat): nat { if a < b then b else a }

  /** How many containers enclose the deepest value. */
  function Height(v: Value): nat
    decreases v, 1
  {
    match v
    case Int(_) => 0
    case ByteString(_) => 0
    case List(items) => ItemsHeight(items)
    case Dict(entries) => EntriesHeight(entries)
  }

  function ItemsHeight(items: seq<Value>): nat
    decreases items, 0
  {
    if items == [] then 0 else Max(1 + Height(items[0]), ItemsHeight(items[1..]))
  }

  function EntriesHeight(entries: seq<Entry>): nat
    decreases entries, 0
  {
    if entries == [] then 0 else Max(1 + Height(entries[0].value), EntriesHeight(entries[1..]))
  }

  // ---- round trip ----

  lemma DecodeEncodedBytes(b: Bytes, r: Bytes)
    requires |EncodeBytes(b) + r| <= U64_MAX
    ensures DecodeByteString(EncodeBytes(b) + r) == Ok((b, r))
  {
    var len := Decimal(|b|);
    var input := EncodeBytes(b) + r;
    assert input == len + [COLON] + (b + r);
    FindAfter(len, COLON, b + r);
    assert input[..|len|] == len;
    ParseDecimal(|b|, U64_MAX);
    assert input[|len| + 1..|len| + 1 + |b|] == b && input[|len| + 1 + |b|..] == r;
  }

  lemma DecodeEncodedInt(n: int, r: Bytes)
    requires I64_MIN <= n <= I64_MAX
    ensures DecodeInt([LOWER_I] + SignedDecimal(n) + [LOWER_E] + r) == Ok((Int(n), r))
  {
    var s := SignedDecimal(n);
    var input := [LOWER_I] + s + [LOWER_E] + r;
    assert input[1..] == s + [LOWER_E] + r;
    FindAfter(s, LOWER_E, r);
    assert (s + [LOWER_E] + r)[..|s|] == s && (s + [LOWER_E] + r)[|s| + 1..] == r;
    ParseSignedDecimal(n);
  }

  lemma Concat4(a: Bytes, b: Bytes, c: Bytes, d: Bytes)
    ensures a + b + c + d == a + (b + (c + d))
  {
  }

  /** Decoding a printed value at `depth` gives the value back if it does not nest too deep from
      there, and an error otherwise. */
  lemma {:induction false} DecodeEncoded(v: Value, r: Bytes, depth: nat)
    requires Fits(v) && |Encode(v) + r| <= U64_MAX
    ensures depth + Height(v) <= MAX_DEPTH ==> Decode(Encode(v) + r, depth) == Ok((v, r))
    ensures depth + Height(v) > MAX_DEPTH ==> Decode(Encode(v) + r, depth) == Err(TooDeep)
    decreases v, 1
  {
    hide DecodeInt, DecodeByteString, EncodeBytes, EncodeItems, EncodeEntries, DecodeItems, DecodeEntries;
    var input := Encode(v) + r;
    match v
    case Int(n) =>
      DecodeEncodedInt(n, r);
    case ByteString(b) =>
      DecodeEncodedBytes(b, r);
    case List(items) =>
      assert input[1..] == EncodeItems(items) + ([LOWER_E] + r);
      DecodeEncodedItems(items, r, depth);
    case Dict(entries) =>
      assert input[1..] == EncodeEntries(entries) + ([LOWER_E] + r);
      DecodeEncodedEntries(entries, r, depth);
  }

  lemma {:induction false} DecodeEncodedItems(items: seq<Value>, r: Bytes, depth: nat)
    requires FitItems(items) && |EncodeItems(items) + ([LOWER_E] + r)| <= U64_MAX
    ensures depth + ItemsHeight(items) <= MAX_DEPTH ==>
      DecodeItems(EncodeItems(items) + ([LOWER_E] + r), depth) == Ok((items, r))
    ensures depth <= MAX_DEPTH < depth + ItemsHeight(items) ==>
      DecodeItems(EncodeItems(items) + ([LOWER_E] + r), depth) == Err(TooDeep)
    decreases items, 0
  {
    hide Encode, Decode, DecodeItems, EncodeItems;
    var tail := [LOWER_E] + r;
    if items == [] {
      DecodeNoItems(r, depth);
    } else {
      var rest := EncodeItems(items[1..]) + tail;
      ItemsText(items, tail);
      DecodeEncoded(items[0], rest, depth + 1);
      DecodeEncodedItems(items[1..], r, depth);
      DecodeItemsStep(EncodeItems(items) + tail, depth);
      assert items == [items[0]] + items[1..];
    }
  }

  lemma DecodeNoItems(r: Bytes, depth: nat)
    ensures DecodeItems(EncodeItems([]) + ([LOWER_E] + r), depth) == Ok(([], r))
  {
    hide Decode;
    EmptyConcat([LOWER_E] + r);
    assert ([LOWER_E] + r)[1..] == r;
  }

  lemma ItemsText(items: seq<Value>, tail: Bytes)
    requires items != []
    ensures var rest := EncodeItems(items[1..]) + tail;
      && EncodeItems(items) + tail == Encode(items[0]) + rest
      && EncodeItems(items) + tail != [] && (EncodeItems(items) + tail)[0] != LOWER_E
  {
    ConcatAssoc(Encode(items[0]), EncodeItems(items[1..]), tail);
  }

  lemma DecodeItemsStep(input: Bytes, depth: nat)
    requires input != [] && input[0] != LOWER_E
    ensures var one := Decode(input, depth + 1);
      DecodeItems(input, depth) ==
        if one.Err? then Err(one.error)
        else
          var more := DecodeItems(one.value.1, depth);
          if more.Err? then Err(more.error) else Ok(([one.value.0] + more.value.0, more.value.1))
  {
    hide Decode;
  }

  lemma {:induction false} DecodeEncodedEntries(entries: seq<Entry>, r: Bytes, depth: nat)
    requires FitEntries(entries) && |EncodeEntries(entries) + ([LOWER_E] + r)| <= U64_MAX
    ensures depth + EntriesHeight(entries) <= MAX_DEPTH ==>
      DecodeEntries(EncodeEntries(entries) + ([LOWER_E] + r), depth) == Ok((entries, r))
    ensures depth <= MAX_DEPTH < depth + EntriesHeight(entries) ==>
      DecodeEntries(EncodeEntries(entries) + ([LOWER_E] + r), depth) == Err(TooDeep)
    decreases entries, 0
  {
    hide Encode, Decode, EncodeBytes, DecodeByteString, DecodeEntries, EncodeEntries;
    var tail := [LOWER_E] + r;
    if entries == [] {
      DecodeNoEntries(r, depth);
    } else {
      var key, v, es := entries[0].key, entries[0].value, entries[1..];
      var rest := EncodeEntries(es) + tail;
      EntriesText(entries, tail);
      DecodeEncodedBytes(key, Encode(v) + rest);
      DecodeEncoded(v, rest, depth + 1);
      DecodeEncodedEntries(es, r, depth);
      DecodeEntriesStep(EncodeEntries(entries) + tail, depth, key, Encode(v) + rest);
      assert entries == [Entry(key, v)] + es;
    }
  }

  lemma DecodeNoEntries(r: Bytes, depth: nat)
    ensures DecodeEntries(EncodeEntries([]) + ([LOWER_E] + r), depth) == Ok(([], r))
  {
    hide Decode, DecodeByteString;
    EmptyConcat([LOWER_E] + r);
    assert ([LOWER_E] + r)[1..] == r;
  }

  lemma EntriesText(entries: seq<Entry>, tail: Bytes)
    requires entries != []
    ensures var e, rest := entries[0], EncodeEntries(entries[1..]) + tail;
      && EncodeEntries(entries) + tail == EncodeBytes(e.key) + (Encode(e.value) + rest)
      && EncodeEntries(entries) + tail != [] && (EncodeEntries(entries) + tail)[0] != LOWER_E
  {
    hide Encode, EncodeBytes;
    Concat4(EncodeBytes(entries[0].key), Encode(entries[0].value), EncodeEntries(entries[1..]), tail);
  }

  lemma DecodeEntriesStep(input: Bytes, depth: nat, key: Bytes, afterKey: Bytes)
    requires input != [] && input[0] != LOWER_E && DecodeByteString(input) == Ok((key, afterKey))
    ensures var one := Decode(afterKey, depth + 1);
      DecodeEntries(input, depth) ==
        if one.Err? then Err(one.error)
        else
          var more := DecodeEntries(one.value.1, depth);
          if more.Err? then Err(more.error)
          else Ok(([Entry(key, one.value.0)] + more.value.0, more.value.1))
  {
    hide Decode, DecodeByteString;
  }

  /** Printer and parser: the decoder returns a printed value and leaves the rest untouched
      exactly when the value nests at most 32 containers deep. */
  lemma RoundTrip(v: Value, r: Bytes)
    requires Fits(v) && |Encode(v) + r| <= U64_MAX
    ensures Decode(Encode(v) + r, 0) == Ok((v, r)) <==> Height(v) <= 32
    ensures Decode(Encode(v) + r, 0) == Err(TooDeep) <==> Height(v) > 32
  {
    hide Decode, Encode;
    DecodeEncoded(v, r, 0);
  }

  /** The converse fails: the decoder accepts spellings the printer never produces. */
  lemma SpellingsNotUnique()
    ensures Decode([105, 48, 55, 101], 0) == Ok((Int(7), []))
    ensures Encode(Int(7)) != [105, 48, 55, 101]
  {
    var s: Bytes := [105, 48, 55, 101];
    assert s[1..] == [48, 55] + [LOWER_E] + [];
    FindAfter([48, 55], LOWER_E, []);
    assert s[1..][..2] == [48, 55];
    assert [48, 55][..1] == [48] && [48][..0] == [];
    assert DigitValue([48, 55]) == 7;
    assert |Encode(Int(7))| == 3;
  }

  // ---- which error ----

  /** How many lists and dictionaries could open in the text. */
  function Openings(s: Bytes): nat {
    if s == [] then 0 else (if s[0] == LOWER_L || s[0] == LOWER_D then 1 else 0) + Openings(s[1..])
  }

  lemma {:induction false} OpeningsOfTail(s: Bytes, k: nat)
    requires k <= |s|
    ensures Openings(s[k..]) <= Openings(s)
  {
    if k > 0 {
      OpeningsOfTail(s[1..], k - 1);
      assert s[1..][k - 1..] == s[k..];
    } else {
      assert s[0..] == s;
    }
  }

  lemma OpeningsOfSuffix(rest: Bytes, s: Bytes)
    requires Suffix(rest, s)
    ensures Openings(rest) <= Openings(s)
  {
    OpeningsOfTail(s, |s| - |rest|);
  }

  /** Nesting is blamed only where enough could nest; anything else malformed is called that, and a
      value is never said to lack `info`. */
  lemma {:induction false} DecodeErrors(input: Bytes, depth: nat)
    requires Decode(input, depth).Err?
    ensures Decode(input, depth).error == TooDeep ==> depth + Openings(input) > MAX_DEPTH
    ensures Decode(input, depth).error != NoInfo
    decreases |input|, 1
  {
    hide DecodeInt, DecodeByteString, DecodeItems, DecodeEntries;
    if depth <= MAX_DEPTH && input != [] {
      if input[0] == LOWER_L {
        ItemsErrors(input[1..], depth);
      } else if input[0] == LOWER_D {
        EntriesErrors(input[1..], depth);
      } else {
        LeafErrors(input);
      }
    }
  }

  lemma LeafErrors(input: Bytes)
    ensures input != [] && input[0] == LOWER_I && DecodeInt(input).Err? ==> DecodeInt(input).error == Malformed
    ensures DecodeByteString(input).Err? ==> DecodeByteString(input).error == Malformed
  {
  }

  lemma {:induction false} ItemsErrors(input: Bytes, depth: nat)
    requires DecodeItems(input, depth).Err?
    ensures DecodeItems(input, depth).error == TooDeep ==> depth + 1 + Openings(input) > MAX_DEPTH
    ensures DecodeItems(input, depth).error != NoInfo
    decreases |input|, 2
  {
    hide Decode, Openings;
    if input != [] {
      if Decode(input, depth + 1).Err? {
        DecodeErrors(input, depth + 1);
      } else {
        var rest := Decode(input, depth + 1).value.1;
        ValueSuffix(input, depth + 1);
        OpeningsOfSuffix(rest, input);
        ItemsErrors(rest, depth);
      }
    }
  }

  lemma {:induction false} EntriesErrors(input: Bytes, depth: nat)
    requires DecodeEntries(input, depth).Err?
    ensures DecodeEntries(input, depth).error == TooDeep ==> depth + 1 + Openings(input) > MAX_DEPTH
    ensures DecodeEntries(input, depth).error != NoInfo
    decreases |input|, 2
  {
    hide Decode, DecodeByteString, Openings;
    LeafErrors(input);
    if input != [] && DecodeByteString(input).Ok? {
      var afterKey := DecodeByteString(input).value.1;
      BytesSuffix(input);
      OpeningsOfSuffix(afterKey, input);
      if Decode(afterKey, depth + 1).Err? {
        DecodeErrors(afterKey, depth + 1);
      } else {
        var rest := Decode(afterKey, depth + 1).value.1;
        ValueSuffix(afterKey, depth + 1);
        OpeningsOfSuffix(rest, afterKey);
        EntriesErrors(rest, depth);
      }
    }
  }

  /** What is no dictionary has no `info` to speak of: it is malformed. */
  lemma NotADictionary(bytes: Bytes)
    requires bytes == [] || bytes[0] != LOWER_D
    ensures TopInfoOffset(bytes) == Err(Malformed) && InfoBytes(bytes) == Err(Malformed)
  {
  }

  // ---- the info span ----

  ghost predicate Suffix(rest: Bytes, input: Bytes) {
    |rest| <= |input| && rest == input[|input| - |rest|..]
  }

  lemma SuffixTrans(a: Bytes, b: Bytes, c: Bytes)
    requires Suffix(a, b) && Suffix(b, c)
    ensures Suffix(a, c)
  {
  }

  lemma BytesSuffix(input: Bytes)
    requires DecodeByteString(input).Ok?
    ensures Suffix(DecodeByteString(input).value.1, input)
  {
  }

  lemma {:induction false} ValueSuffix(input: Bytes, depth: nat)
    requires Decode(input, depth).Ok?
    ensures Suffix(Decode(input, depth).value.1, input)
    decreases |input|, 1
  {
    hide DecodeByteString, DecodeItems, DecodeEntries;
    if input[0] == LOWER_L {
      ItemsSuffix(input[1..], depth);
      SuffixTrans(Decode(input, depth).value.1, input[1..], input);
    } else if input[0] == LOWER_D {
      EntriesSuffix(input[1..], depth);
      SuffixTrans(Decode(input, depth).value.1, input[1..], input);
    } else if IsDigit(input[0]) {
      BytesSuffix(input);
    } else {
      var end := Find(input[1..], LOWER_E);
      assert input[1..][end + 1..] == input[end + 2..];
    }
  }

  lemma {:induction false} ItemsSuffix(input: Bytes, depth: nat)
    requires DecodeItems(input, depth).Ok?
    ensures Suffix(DecodeItems(input, depth).value.1, input)
    decreases |input|, 2
  {
    hide Decode;
    if input[0] != LOWER_E {
      var rest := Decode(input, depth + 1).value.1;
      ValueSuffix(input, depth + 1);
      ItemsSuffix(rest, depth);
      SuffixTrans(DecodeItems(rest, depth).value.1, rest, input);
    }
  }

  lemma {:induction false} EntriesSuffix(input: Bytes, depth: nat)
    requires DecodeEntries(input, depth).Ok?
    ensures Suffix(DecodeEntries(input, depth).value.1, input)
    decreases |input|, 2
  {
    hide Decode, DecodeByteString;
    if input[0] != LOWER_E {
      var afterKey := DecodeByteString(input).value.1;
      var rest := Decode(afterKey, depth + 1).value.1;
      BytesSuffix(input);
      ValueSuffix(afterKey, depth + 1);
      EntriesSuffix(rest, depth);
      SuffixTrans(rest, afterKey, input);
      SuffixTrans(DecodeEntries(rest, depth).value.1, rest, input);
    }
  }

  /** A value accepted at some depth is decoded identically closer to the top. */
  lemma {:induction false} Shallower(input: Bytes, depth: nat, depth': nat)
    requires Decode(input, depth).Ok? && depth' <= depth
    ensures Decode(input, depth') == Decode(input, depth)
    decreases |input|, 1
  {
    hide DecodeInt, DecodeByteString, DecodeItems, DecodeEntries;
    if input[0] == LOWER_L {
      ShallowerItems(input[1..], depth, depth');
    } else if input[0] == LOWER_D {
      ShallowerEntries(input[1..], depth, depth');
    }
  }

  lemma {:induction false} ShallowerItems(input: Bytes, depth: nat, depth': nat)
    requires DecodeItems(input, depth).Ok? && depth' <= depth
    ensures DecodeItems(input, depth') == DecodeItems(input, depth)
    decreases |input|, 2
  {
    hide Decode;
    if input[0] != LOWER_E {
      Shallower(input, depth + 1, depth' + 1);
      ShallowerItems(Decode(input, depth + 1).value.1, depth, depth');
    }
  }

  lemma {:induction false} ShallowerEntries(input: Bytes, depth: nat, depth': nat)
    requires DecodeEntries(input, depth).Ok? && depth' <= depth
    ensures DecodeEntries(input, depth') == DecodeEntries(input, depth)
    decreases |input|, 2
  {
    hide Decode, DecodeByteString;
    if input[0] != LOWER_E {
      var afterKey := DecodeByteString(input).value.1;
      Shallower(afterKey, depth + 1, depth' + 1);
      ShallowerEntries(Decode(afterKey, depth + 1).value.1, depth, depth');
    }
  }

  /** Start and end, within `total` bytes, of what decoding consumed for each entry's value. */
  ghost function Spans(input: Bytes, depth: nat, total: nat): (spans: seq<(nat, nat)>)
    requires DecodeEntries(input, depth).Ok? && |input| <= total
    ensures |spans| == |DecodeEntries(input, depth).value.0|
    decreases |input|
  {
    if input[0] == LOWER_E then []
    else
      var afterKey := DecodeByteString(input).value.1;
      var rest := Decode(afterKey, depth + 1).value.1;
      [(total - |afterKey|, total - |rest|)] + Spans(rest, depth, total)
  }

  ghost predicate FirstInfo(entries: seq<Entry>, j: nat) {
    j < |entries| && entries[j].key == INFO && forall k :: 0 <= k < j ==> entries[k].key != INFO
  }

  /** The walk finds the first `info` entry of the dictionary the whole decode saw, and decoding
      there, one level shallower, consumes exactly that entry's span. */
  lemma {:induction false} WalkFindsInfo(input: Bytes, bytes: Bytes, j: nat)
    requires DecodeEntries(input, 0).Ok? && Suffix(input, bytes)
    requires FirstInfo(DecodeEntries(input, 0).value.0, j)
    ensures var span := Spans(input, 0, |bytes|)[j];
      && span.0 <= span.1 <= |bytes|
      && InfoOffset(input, |bytes|) == Ok(span.0)
      && Decode(bytes[span.0..], 0) == Ok((DecodeEntries(input, 0).value.0[j].value, bytes[span.1..]))
    decreases |input|
  {
    hide Decode, DecodeByteString;
    var es := DecodeEntries(input, 0).value.0;
    var afterKey := DecodeByteString(input).value.1;
    var rest := Decode(afterKey, 1).value.1;
    BytesSuffix(input);
    SuffixTrans(afterKey, input, bytes);
    ValueSuffix(afterKey, 1);
    SuffixTrans(rest, afterKey, bytes);
    Shallower(afterKey, 1, 0);
    if j > 0 {
      var es' := DecodeEntries(rest, 0).value.0;
      assert es == [es[0]] + es';
      assert es[0].key != INFO;
      assert FirstInfo(es', j - 1) by {
        assert forall k :: 0 <= k < |es'| ==> es'[k] == es[k + 1];
      }
      WalkFindsInfo(rest, bytes, j - 1);
    }
  }

  /** A dictionary without the key is reported as such, whatever its values. */
  lemma {:induction false} NoInfoReported(input: Bytes, total: nat)
    requires DecodeEntries(input, 0).Ok? && |input| <= total
    requires forall k :: 0 <= k < |DecodeEntries(input, 0).value.0| ==> DecodeEntries(input, 0).value.0[k].key != INFO
    ensures InfoOffset(input, total) == Err(NoInfo)
    decreases |input|
  {
    hide Decode, DecodeByteString;
    if input[0] != LOWER_E {
      var es := DecodeEntries(input, 0).value.0;
      var afterKey := DecodeByteString(input).value.1;
      var rest := Decode(afterKey, 1).value.1;
      var es' := DecodeEntries(rest, 0).value.0;
      assert es == [es[0]] + es';
      assert es[0].key != INFO;
      assert forall k :: 0 <= k < |es'| ==> es'[k] == es[k + 1];
      Shallower(afterKey, 1, 0);
      NoInfoReported(rest, total);
    }
  }

  lemma DictEntries(bytes: Bytes, entries: seq<Entry>, tail: Bytes)
    requires Decode(bytes, 0) == Ok((Dict(entries), tail))
    ensures bytes != [] && bytes[0] == LOWER_D
    ensures DecodeEntries(bytes[1..], 0) == Ok((entries, tail))
  {
    hide DecodeEntries, DecodeItems;
  }

  lemma InfoBytesAt(bytes: Bytes, start: nat, stop: nat, value: Value)
    requires start <= stop <= |bytes| && TopInfoOffset(bytes) == Ok(start)
    requires Decode(bytes[start..], 0) == Ok((value, bytes[stop..]))
    ensures InfoBytes(bytes) == Ok((value, bytes[start..stop]))
  {
    hide TopInfoOffset, Decode;
    SliceSlice(bytes, start, stop);
  }

  /** Whenever the whole input decodes to a dictionary with an `info` key, the infohash is taken
      over exactly the bytes that decode consumed for the first `info` value, and the value read
      there is that entry's value. */
  lemma InfoSpanExact(bytes: Bytes, entries: seq<Entry>, tail: Bytes, j: nat)
    requires Decode(bytes, 0) == Ok((Dict(entries), tail))
    requires FirstInfo(entries, j)
    ensures DecodeEntries(bytes[1..], 0).Ok?
    ensures var span := Spans(bytes[1..], 0, |bytes|)[j];
      && span.0 <= span.1 <= |bytes|
      && TopInfoOffset(bytes) == Ok(span.0)
      && InfoBytes(bytes) == Ok((entries[j].value, bytes[span.0..span.1]))
  {
    hide InfoOffset, InfoBytes, Decode, DecodeEntries, DecodeByteString, AllDigits, Spans;
    DictEntries(bytes, entries, tail);
    WalkFindsInfo(bytes[1..], bytes, j);
    var span := Spans(bytes[1..], 0, |bytes|)[j];
    InfoBytesAt(bytes, span.0, span.1, entries[j].value);
  }
}
