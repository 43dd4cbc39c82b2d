/**
  Base64 with the standard alphabet and `=` padding, as in section 4 of
  RFC 4648 (Go's `base64.StdEncoding`). `Encode` is `EncodeToString`, used
  when the catalog loads a file; `Decode` is `DecodeString`, used by the
  single-document view.
 */
module Base64 {
  import opened Results

  type byte = b: int | 0 <= b < 256
  type sextet = v: int | 0 <= v < 64

  /** Go reports a `CorruptInputError`; its byte offset is not modelled. */
  datatype DecodeError = CorruptInput

  const Pad: char := '='

  /** The character for a 6-bit value (table 1 of RFC 4648). */
  function CharOf(v: sextet): (c: char)
  {
    if v < 26 then ('A' as int + v) as char
    else if v < 52 then ('a' as int + (v - 26)) as char
    else if v < 62 then ('0' as int + (v - 52)) as char
    else if v == 62 then '+'
    else '/'
  }

  /** The 6-bit value of an alphabet character, or None for any other character. */
  function ValueOf(c: char): (r: Option<sextet>)
    ensures r.Some? ==> CharOf(r.value) == c
  {
    if 'A' <= c <= 'Z' then Some(c as int - 'A' as int)
    else if 'a' <= c <= 'z' then Some(c as int - 'a' as int + 26)
    else if '0' <= c <= '9' then Some(c as int - '0' as int + 52)
    else if c == '+' then Some(62)
    else if c == '/' then Some(63)
    else None
  }

  predicate InAlphabet(c: char)
  {
    ValueOf(c).Some?
  }

  lemma {:induction false} ValueOfCharOf(v: sextet)
    ensures ValueOf(CharOf(v)) == Some(v)
  {
  }

  /** A full quantum: three bytes become four characters. */
  function EncodeQuantum(b0: byte, b1: byte, b2: byte): string
  {
    [CharOf(b0 / 4), CharOf((b0 % 4) * 16 + b1 / 16), CharOf((b1 % 16) * 4 + b2 / 64), CharOf(b2 % 64)]
  }

  /** The final quantum of one byte: two characters and two pads. */
  function EncodeOne(b0: byte): string
  {
    [CharOf(b0 / 4), CharOf((b0 % 4) * 16), Pad, Pad]
  }

  /** The final quantum of two bytes: three characters and one pad. */
  function EncodeTwo(b0: byte, b1: byte): string
  {
    [CharOf(b0 / 4), CharOf((b0 % 4) * 16 + b1 / 16), CharOf((b1 % 16) * 4), Pad]
  }

  /** Go's `base64.StdEncoding.EncodeToString`. */
  function Encode(data: seq<byte>): (s: string)
    ensures |s| == 4 * ((|data| + 2) / 3)
    decreases |data|
  {
    if |data| == 0 then []
    else if |data| == 1 then EncodeOne(data[0])
    else if |data| == 2 then EncodeTwo(data[0], data[1])
    else EncodeQuantum(data[0], data[1], data[2]) + Encode(data[3..])
  }

  /** Number of padding characters in an encoding of `n` bytes. */
  function PadCount(n: nat): nat
  {
    (3 - n % 3) % 3
  }

  lemma {:induction false} QuantumInAlphabet(b0: byte, b1: byte, b2: byte)
    ensures forall i :: 0 <= i < 4 ==> InAlphabet(EncodeQuantum(b0, b1, b2)[i])
  {
    ValueOfCharOf(b0 / 4);
    ValueOfCharOf((b0 % 4) * 16 + b1 / 16);
    ValueOfCharOf((b1 % 16) * 4 + b2 / 64);
    ValueOfCharOf(b2 % 64);
  }

  /** The encoding always ends in exactly the padding RFC 4648 prescribes. */
  lemma {:induction false} EncodePadding(data: seq<byte>)
    ensures var s := Encode(data);
      && PadCount(|data|) <= |s|
      && (forall i :: 0 <= i < |s| - PadCount(|data|) ==> InAlphabet(s[i]))
      && (forall i :: |s| - PadCount(|data|) <= i < |s| ==> s[i] == Pad)
    decreases |data|
  {
    if |data| >= 3 {
      var q := EncodeQuantum(data[0], data[1], data[2]);
      var rest := Encode(data[3..]);
      var s := Encode(data);
      EncodePadding(data[3..]);
      QuantumInAlphabet(data[0], data[1], data[2]);
      assert s == q + rest;
      var p := PadCount(|data|);
      assert p == PadCount(|data[3..]|);
      assert |s| == 4 + |rest|;
      forall i | 0 <= i < |s| - p ensures InAlphabet(s[i]) {
        if i < 4 {
          assert s[i] == q[i];
        } else {
          assert s[i] == rest[i - 4];
        }
      }
      forall i | |s| - p <= i < |s| ensures s[i] == Pad {
        assert s[i] == rest[i - 4];
      }
    } else {
      FinalQuantumPadding(data);
    }
  }

  /** The final quantum of one or two bytes carries two or one pads after alphabet characters. */
  lemma {:induction false} FinalQuantumPadding(data: seq<byte>)
    requires |data| < 3
    ensures var s := Encode(data);
      && PadCount(|data|) <= |s|
      && (forall i :: 0 <= i < |s| - PadCount(|data|) ==> InAlphabet(s[i]))
      && (forall i :: |s| - PadCount(|data|) <= i < |s| ==> s[i] == Pad)
  {
    if |data| == 2 {
      ValueOfCharOf(data[0] / 4);
      ValueOfCharOf((data[0] % 4) * 16 + data[1] / 16);
      ValueOfCharOf((data[1] % 16) * 4);
    } else if |data| == 1 {
      ValueOfCharOf(data[0] / 4);
      ValueOfCharOf((data[0] % 4) * 16);
    }
  }

  /** Go's decoder skips every carriage return and line feed in its input. */
  function StripNewlines(s: string): (t: string)
    ensures |t| <= |s|
    ensures forall i :: 0 <= i < |t| ==> t[i] != '\n' && t[i] != '\r'
    ensures forall c :: c != '\n' && c != '\r' ==> multiset(t)[c] == multiset(s)[c]
  {
    if s == [] then []
    else
      assert s == [s[0]] + s[1..];
      if s[0] == '\n' || s[0] == '\r' then StripNewlines(s[1..])
      else [s[0]] + StripNewlines(s[1..])
  }

  /** Stripping works piecewise, so what is kept stays in its order. */
  lemma {:induction false} StripNewlinesAppend(a: string, b: string)
    ensures StripNewlines(a + b) == StripNewlines(a) + StripNewlines(b)
    decreases |a|
  {
    if a != [] {
      assert (a + b)[1..] == a[1..] + b;
      StripNewlinesAppend(a[1..], b);
    } else {
      assert a + b == b;
    }
  }

  /** What one group of four characters decodes to. */
  datatype Quantum =
    | Full(bytes: seq<byte>)     // four alphabet characters: three bytes
    | Padded(bytes: seq<byte>)   // `xxx=` or `xx==`: two bytes or one
    | Invalid

  /**
    Decodes one group of four characters. Bits below the last full byte are
    dropped without being checked, since `StdEncoding` is not in strict mode.
   */
  function DecodeQuantum(c0: char, c1: char, c2: char, c3: char): (q: Quantum)
    ensures q.Full? <==> InAlphabet(c0) && InAlphabet(c1) && InAlphabet(c2) && InAlphabet(c3)
    ensures q.Full? ==> |q.bytes| == 3
    ensures q.Padded? ==> InAlphabet(c0) && InAlphabet(c1) && (InAlphabet(c2) || c2 == Pad) && c3 == Pad
    ensures q.Padded? ==> |q.bytes| == if c2 == Pad then 1 else 2
    ensures InAlphabet(c0) && InAlphabet(c1) && InAlphabet(c2) && c3 == Pad ==> q.Padded?
    ensures InAlphabet(c0) && InAlphabet(c1) && c2 == Pad && c3 == Pad ==> q.Padded?
  {
    var v0, v1, v2, v3 := ValueOf(c0), ValueOf(c1), ValueOf(c2), ValueOf(c3);
    if v0.None? || v1.None? then Invalid
    else if v2.Some? && v3.Some? then
      var a, b, c, d := v0.value, v1.value, v2.value, v3.value;
      Full([a * 4 + b / 16, (b % 16) * 16 + c / 4, (c % 4) * 64 + d])
    else if v2.Some? && c3 == Pad then
      var a, b, c := v0.value, v1.value, v2.value;
      Padded([a * 4 + b / 16, (b % 16) * 16 + c / 4])
    else if c2 == Pad && c3 == Pad then
      var a, b := v0.value, v1.value;
      Padded([a * 4 + b / 16])
    else Invalid
  }

  /**
    Decodes newline-free text quantum by quantum. Padding may only occur in
    the last quantum, as `xx==` or `xxx=`; a short last quantum is an error.
   */
  function DecodeQuanta(s: string): (r: Result<seq<byte>, DecodeError>)
    decreases |s|
  {
    if |s| == 0 then Ok([])
    else if |s| < 4 then Err(CorruptInput)
    else
      match DecodeQuantum(s[0], s[1], s[2], s[3])
      case Invalid => Err(CorruptInput)
      case Full(bytes) =>
        (match DecodeQuanta(s[4..])
         case Err(e) => Err(e)
         case Ok(rest) => Ok(bytes + rest))
      case Padded(bytes) => if |s| > 4 then Err(CorruptInput) else Ok(bytes)
  }

  /** The number of `=` at the end of a quantum-aligned text: its last two characters. */
  function TrailingPads(t: string): nat
    requires |t| >= 4
  {
    (if t[|t| - 1] == Pad then 1 else 0) + (if t[|t| - 2] == Pad then 1 else 0)
  }

  /** Go's `base64.StdEncoding.DecodeString`. */
  function Decode(s: string): (r: Result<seq<byte>, DecodeError>)
  {
    DecodeQuanta(StripNewlines(s))
  }

  /** Input whose length, newlines removed, is not a multiple of four is rejected. */
  lemma {:induction false} DecodeRejectsPartialQuantum(s: string)
    requires |StripNewlines(s)| % 4 != 0
    ensures Decode(s).Err?
  {
    DecodeQuantaRejectsPartial(StripNewlines(s));
  }

  lemma {:induction false} DecodeQuantaRejectsPartial(t: string)
    requires |t| % 4 != 0
    ensures DecodeQuanta(t).Err?
    decreases |t|
  {
    if |t| > 4 {
      DecodeQuantaRejectsPartial(t[4..]);
    }
  }

  /** Successful decoding yields three bytes per quantum, less one per trailing pad. */
  lemma {:induction false} DecodedLength(t: string)
    requires DecodeQuanta(t).Ok?
    ensures |t| % 4 == 0
    ensures |t| > 0 ==> |DecodeQuanta(t).value| == 3 * (|t| / 4) - TrailingPads(t)
    ensures |t| == 0 ==> DecodeQuanta(t).value == []
    decreases |t|
  {
    if |t| > 0 {
      if DecodeQuantum(t[0], t[1], t[2], t[3]).Full? {
        DecodeQuantaFullStep(t);
        DecodedLength(t[4..]);
        if |t| > 4 {
          assert t[4..][|t| - 5] == t[|t| - 1] && t[4..][|t| - 6] == t[|t| - 2];
        } else {
          assert !InAlphabet(Pad);
        }
      } else {
        DecodeQuantaPaddedStep(t);
      }
    }
  }

  lemma {:induction false} DecodeQuantaFullStep(t: string)
    requires |t| >= 4 && DecodeQuanta(t).Ok?
    requires ValueOf(t[2]).Some? && ValueOf(t[3]).Some?
    ensures DecodeQuanta(t[4..]).Ok?
    ensures |DecodeQuanta(t).value| == 3 + |DecodeQuanta(t[4..]).value|
  {
  }

  lemma {:induction false} DecodeQuantaPaddedStep(t: string)
    requires |t| > 0 && DecodeQuanta(t).Ok?
    requires !(ValueOf(t[2]).Some? && ValueOf(t[3]).Some?)
    ensures |t| == 4 && 1 <= |DecodeQuanta(t).value| <= 2
    ensures |DecodeQuanta(t).value| == 3 - TrailingPads(t)
  {
  }

  lemma {:induction false} StripNewlinesIdentity(s: string)
    requires forall i :: 0 <= i < |s| ==> s[i] != '\n' && s[i] != '\r'
    ensures StripNewlines(s) == s
  {
    if s != [] {
      StripNewlinesIdentity(s[1..]);
      assert s == [s[0]] + s[1..];
    }
  }

  /** Encoded text contains no newline, so the decoder keeps all of it. */
  lemma {:induction false} EncodeHasNoNewlines(data: seq<byte>)
    ensures StripNewlines(Encode(data)) == Encode(data)
  {
    var s := Encode(data);
    EncodePadding(data);
    forall i | 0 <= i < |s| ensures s[i] != '\n' && s[i] != '\r' {
      assert InAlphabet(s[i]) || s[i] == Pad;
    }
    StripNewlinesIdentity(s);
  }

  lemma {:induction false} QuantumRoundTrip(b0: byte, b1: byte, b2: byte)
    ensures var a, b, c, d := b0 / 4, (b0 % 4) * 16 + b1 / 16, (b1 % 16) * 4 + b2 / 64, b2 % 64;
      && a * 4 + b / 16 == b0
      && (b % 16) * 16 + c / 4 == b1
      && (c % 4) * 64 + d == b2
  {
  }

  /** Decoding an encoding gives back exactly the bytes. */
  lemma {:induction false} DecodeQuantaEncode(data: seq<byte>)
    ensures DecodeQuanta(Encode(data)) == Ok(data)
    decreases |data|
  {
    if |data| >= 3 {
      DecodeQuantaEncode(data[3..]);
      DecodeLeadingQuantum(data);
    } else {
      DecodeFinalQuantum(data);
    }
  }

  /** The last zero, one or two bytes decode back from their final quantum. */
  lemma {:induction false} DecodeFinalQuantum(data: seq<byte>)
    requires |data| < 3
    ensures DecodeQuanta(Encode(data)) == Ok(data)
  {
    if |data| == 2 {
      DecodeTwoBytes(data[0], data[1]);
      assert data == [data[0], data[1]];
    } else if |data| == 1 {
      DecodeOneByte(data[0]);
      assert data == [data[0]];
    }
  }

  lemma {:induction false} DecodeFullQuantum(b0: byte, b1: byte, b2: byte, rest: string, restData: seq<byte>)
    requires DecodeQuanta(rest) == Ok(restData)
    ensures DecodeQuanta(EncodeQuantum(b0, b1, b2) + rest) == Ok([b0, b1, b2] + restData)
  {
    var q := EncodeQuantum(b0, b1, b2);
    var s := q + rest;
    assert s[..4] == q && s[4..] == rest;
    ValueOfCharOf(b0 / 4);
    ValueOfCharOf((b0 % 4) * 16 + b1 / 16);
    ValueOfCharOf((b1 % 16) * 4 + b2 / 64);
    ValueOfCharOf(b2 % 64);
    QuantumRoundTrip(b0, b1, b2);
  }

  /** The first three bytes decode back from the first quantum of the encoding. */
  lemma {:induction false} DecodeLeadingQuantum(data: seq<byte>)
    requires |data| >= 3 && DecodeQuanta(Encode(data[3..])) == Ok(data[3..])
    ensures DecodeQuanta(Encode(data)) == Ok(data)
  {
    var tail := data[3..];
    calc {
      DecodeQuanta(Encode(data));
      DecodeQuanta(EncodeQuantum(data[0], data[1], data[2]) + Encode(tail));
      { DecodeFullQuantum(data[0], data[1], data[2], Encode(tail), tail); }
      Ok([data[0], data[1], data[2]] + tail);
      { assert data == [data[0], data[1], data[2]] + tail; }
      Ok(data);
    }
  }

  lemma {:induction false} DecodeTwoBytes(b0: byte, b1: byte)
    ensures DecodeQuanta(EncodeTwo(b0, b1)) == Ok([b0, b1])
  {
    ValueOfCharOf(b0 / 4);
    ValueOfCharOf((b0 % 4) * 16 + b1 / 16);
    ValueOfCharOf((b1 % 16) * 4);
    QuantumRoundTrip(b0, b1, 0);
  }

  lemma {:induction false} DecodeOneByte(b0: byte)
    ensures DecodeQuanta(EncodeOne(b0)) == Ok([b0])
  {
    ValueOfCharOf(b0 / 4);
    ValueOfCharOf((b0 % 4) * 16);
    QuantumRoundTrip(b0, 0, 0);
  }

  /** The round trip between the catalog's encoding and the view's decoding. */
  lemma {:induction false} DecodeEncode(data: seq<byte>)
    ensures Decode(Encode(data)) == Ok(data)
  {
    EncodeHasNoNewlines(data);
    DecodeQuantaEncode(data);
  }
}
