/** The bencode decoder of crates/np2ptp-bridge/src/bencode.rs (BEP 3, "bencoding"), its printer,
    and the second walk that locates the raw bytes of the top-level `info` value. */
module Bencode {
  import opened Basics
  import opened Text

  datatype Value =
    | Int(n: int)
    | ByteString(bytes: Bytes)
    | List(items: seq<Value>)
    | Dict(entries: seq<Entry>)

  datatype Entry = Entry(key: Bytes, value: Value)

  datatype Error = Malformed | TooDeep | NoInfo

  const MAX_DEPTH: nat := 32
  const COLON: Byte := 58
  const LOWER_D: Byte := 100
  const LOWER_E: Byte := 101
  const LOWER_I: Byte := 105
  const LOWER_L: Byte := 108
  /** The key "info". */
  const INFO: Bytes := [105, 110, 102, 111]

  type Decoded<T> = Result<(T, Bytes), Error>

  function DecodeInt(input: Bytes): (r: Decoded<Value>)
    requires input != [] && input[0] == LOWER_I
    ensures r.Ok? ==> |r.value.1| < |input|
  {
    var rest := input[1..];
    var end := Find(rest, LOWER_E);
    if end == |rest| then Err(Malformed)
    else
      match ParseI64(rest[..end])
      case None => Err(Malformed)
      case Some(n) => Ok((Int(n), rest[end + 1..]))
  }

  function DecodeByteString(input: Bytes): (r: Decoded<Bytes>)
    ensures r.Ok? ==> |r.value.1| < |input|
  {
    var colon := Find(input, COLON);
    if colon == |input| then Err(Malformed)
    else
      match ParseUnsigned(input[..colon], U64_MAX)
      case None => Err(Malformed)
      case Some(len) =>
        var start := colon + 1;
        if start + len > U64_MAX || start + len > |input| then Err(Malformed)
        else Ok((input[start..start + len], input[start + len..]))
  }

  function Decode(input: Bytes, depth: nat): (r: Decoded<Value>)
    ensures r.Ok? ==> |r.value.1| < |input|
    decreases |input|, 1
  {
    if depth > MAX_DEPTH then Err(TooDeep)
    else if input == [] then Err(Malformed)
    else if input[0] == LOWER_I then DecodeInt(input)
    else if input[0] == LOWER_L then
      match DecodeItems(input[1..], depth)
      case Err(e) => Err(e)
      case Ok((items, rest)) => Ok((List(items), rest))
    else if input[0] == LOWER_D then
      match DecodeEntries(input[1..], depth)
      case Err(e) => Err(e)
      case Ok((entries, rest)) => Ok((Dict(entries), rest))
    else if IsDigit(input[0]) then
      match DecodeByteString(input)
      case Err(e) => Err(e)
      case Ok((b, rest)) => Ok((ByteString(b), rest))
    else Err(Malformed)
  }

  /** The items of a list up to and including its closing `e`. */
  function DecodeItems(input: Bytes, depth: nat): (r: Decoded<seq<Value>>)
    ensures r.Ok? ==> |r.value.1| < |input|
    decreases |input|, 2
  {
    if input == [] then Err(Malformed)
    else if input[0] == LOWER_E then Ok(([], input[1..]))
    else
      match Decode(input, depth + 1)
      case Err(e) => Err(e)
      case Ok((v, rest)) =>
        match DecodeItems(rest, depth)
        case Err(e) => Err(e)
        case Ok((vs, rest')) => Ok(([v] + vs, rest'))
  }

  /** The entries of a dictionary up to and including its closing `e`. */
  function DecodeEntries(input: Bytes, depth: nat): (r: Decoded<seq<Entry>>)
    ensures r.Ok? ==> |r.value.1| < |input|
    decreases |input|, 2
  {
    if input == [] then Err(Malformed)
    else if input[0] == LOWER_E then Ok(([], input[1..]))
    else
      match DecodeByteString(input)
      case Err(e) => Err(e)
      case Ok((key, rest)) =>
        match Decode(rest, depth + 1)
        case Err(e) => Err(e)
        case Ok((v, rest')) =>
          match DecodeEntries(rest', depth)
          case Err(e) => Err(e)
          case Ok((es, rest'')) => Ok(([Entry(key, v)] + es, rest''))
  }

  // ---- the loops ----

  method ParseValue(input: Bytes, depth: nat) returns (r: Decoded<Value>)
    ensures r == Decode(input, depth)
    decreases |input|, 1
  {
    if depth > MAX_DEPTH {
      return Err(TooDeep);
    }
    if input == [] {
      return Err(Malformed);
    }
    if input[0] == LOWER_I {
      r := DecodeInt(input);
    } else if input[0] == LOWER_L {
      r := ParseList(input, depth);
    } else if input[0] == LOWER_D {
      r := ParseDict(input, depth);
    } else if IsDigit(input[0]) {
      var b := DecodeByteString(input);
      match b
      case Err(e) => r := Err(e);
      case Ok((bytes, rest)) => r := Ok((ByteString(bytes), rest));
    } else {
      r := Err(Malformed);
    }
  }

  /** What a loop that has collected `done` returns when the remaining input gives `rest`. */
  ghost function Prepend<T>(done: seq<T>, rest: Decoded<seq<T>>): Decoded<seq<T>> {
    match rest
    case Err(e) => Err(e)
    case Ok((ts, r)) => Ok((done + ts, r))
  }

  lemma PrependNone<T>(rest: Decoded<seq<T>>)
    ensures Prepend([], rest) == rest
  {
    if rest.Ok? {
      EmptyConcat(rest.value.0);
    }
  }

  lemma PrependOne<T>(done: seq<T>, t: T, rest: Decoded<seq<T>>)
    ensures Prepend(done, Prepend([t], rest)) == Prepend(done + [t], rest)
  {
    if rest.Ok? {
      ConcatAssoc(done, [t], rest.value.0);
    }
  }

  method ParseList(input: Bytes, depth: nat) returns (r: Decoded<Value>)
    requires input != [] && input[0] == LOWER_L && depth <= MAX_DEPTH
    ensures r == Decode(input, depth)
    decreases |input|, 0
  {
    var rest := input[1..];
    var items: seq<Value> := [];
    ghost var all := DecodeItems(input[1..], depth);
    PrependNone(all);
    while true
      invariant |rest| < |input|
      invariant Prepend(items, DecodeItems(rest, depth)) == all
      decreases |rest|
    {
      if rest == [] {
        return Err(Malformed);
      }
      if rest[0] == LOWER_E {
        EmptyTail(items);
        return Ok((List(items), rest[1..]));
      }
      var one := ParseValue(rest, depth + 1);
      match one
      case Err(e) => return Err(e);
      case Ok((v, rest')) =>
        PrependOne(items, v, DecodeItems(rest', depth));
        items := items + [v];
        rest := rest';
    }
  }

  method ParseDict(input: Bytes, depth: nat) returns (r: Decoded<Value>)
    requires input != [] && input[0] == LOWER_D && depth <= MAX_DEPTH
    ensures r == Decode(input, depth)
    decreases |input|, 0
  {
    var rest := input[1..];
    var entries: seq<Entry> := [];
    ghost var all := DecodeEntries(input[1..], depth);
    PrependNone(all);
    hide DecodeByteString;
    while true
      invariant |rest| < |input|
      invariant Prepend(entries, DecodeEntries(rest, depth)) == all
      decreases |rest|
    {
      if rest == [] {
        return Err(Malformed);
      }
      if rest[0] == LOWER_E {
        EmptyTail(entries);
        return Ok((Dict(entries), rest[1..]));
      }
      var name := DecodeByteString(rest);
      if name.Err? {
        return Err(name.error);
      }
      var key, afterKey := name.value.0, name.value.1;
      var one := ParseValue(afterKey, depth + 1);
      if one.Err? {
        return Err(one.error);
      }
      var v, rest' := one.value.0, one.value.1;
      PrependOne(entries, Entry(key, v), DecodeEntries(rest', depth));
      entries := entries + [Entry(key, v)];
      rest := rest';
    }
  }

  // ---- the second walk ----

  /** Where the value of the first `info` key starts, `rest` being what is left of `total` bytes. */
  function InfoOffset(rest: Bytes, total: nat): (r: Result<nat, Error>)
    requires |rest| <= total
    ensures r.Ok? ==> r.value <= total
    decreases |rest|
  {
    if rest == [] then Err(Malformed)
    else if rest[0] == LOWER_E then Err(NoInfo)
    else
      match DecodeByteString(rest)
      case Err(e) => Err(e)
      case Ok((key, afterKey)) =>
        if key == INFO then Ok(total - |afterKey|)
        else
          match Decode(afterKey, 0)
          case Err(e) => Err(e)
          case Ok((_, rest')) => InfoOffset(rest', total)
  }

  function TopInfoOffset(bytes: Bytes): (r: Result<nat, Error>)
    ensures r.Ok? ==> r.value <= |bytes|
  {
    if bytes == [] || bytes[0] != LOWER_D then Err(Malformed) else InfoOffset(bytes[1..], |bytes|)
  }

  method FindInfoOffset(bytes: Bytes) returns (r: Result<nat, Error>)
    ensures r == TopInfoOffset(bytes)
  {
    hide Decode, DecodeByteString, DecodeInt, ParseI64, ParseUnsigned, AllDigits;
    if bytes == [] || bytes[0] != LOWER_D {
      return Err(Malformed);
    }
    var rest := bytes[1..];
    while true
      invariant |rest| < |bytes|
      invariant InfoOffset(rest, |bytes|) == TopInfoOffset(bytes)
      decreases |rest|
    {
      if rest == [] {
        return Err(Malformed);
      }
      if rest[0] == LOWER_E {
        return Err(NoInfo);
      }
      var name := DecodeByteString(rest);
      if name.Err? {
        return Err(name.error);
      }
      var key, afterKey := name.value.0, name.value.1;
      if key == INFO {
        return Ok(|bytes| - |afterKey|);
      }
      var one := ParseValue(afterKey, 0);
      if one.Err? {
        return Err(one.error);
      }
      rest := one.value.1;
    }
  }

  /** The `info` value and the raw bytes whose SHA-1 becomes the infohash. */
  function InfoBytes(bytes: Bytes): Result<(Value, Bytes), Error> {
    match TopInfoOffset(bytes)
    case Err(e) => Err(e)
    case Ok(offset) =>
      var slice := bytes[offset..];
      match Decode(slice, 0)
      case Err(e) => Err(e)
      case Ok((v, rest)) => Ok((v, slice[..|slice| - |rest|]))
  }

  method ReadInfo(bytes: Bytes) returns (r: Result<(Value, Bytes), Error>)
    ensures r == InfoBytes(bytes)
  {
    var offset := FindInfoOffset(bytes);
    if offset.Err? {
      return Err(offset.error);
    }
    var slice := bytes[offset.value..];
    var info := ParseValue(slice, 0);
    if info.Err? {
      return Err(info.error);
    }
    var consumed := |slice| - |info.value.1|;
    r := Ok((info.value.0, slice[..consumed]));
  }
}
