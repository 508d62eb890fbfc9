/** The check of `\u` escapes on raw JSON bytes (a2acrypto/canonical.go, `validateUnicode`). */
module SurrogateScanner {
  import opened Json
  import opened Utf8
  import KeyOrder

  const BACKSLASH := 0x5C
  const LOWER_U := 0x75

  // ---- The bytes as tokens, read from left to right ----

  /** A byte outside escapes, a backslash with the byte after it, or `\u` and four hex digits. */
  datatype Token = Plain | Simple | Unit(value: nat) {
    function Width(): nat {
      match this case Plain => 1 case Simple => 2 case Unit(_) => 6
    }

    predicate High() {
      Unit? && 0xD800 <= value < 0xDC00
    }

    predicate Low() {
      Unit? && 0xDC00 <= value < 0xE000
    }
  }

  function HexValue(b: Byte): Option<nat> {
    if 0x30 <= b <= 0x39 then Some(b - 0x30)
    else if 0x41 <= b <= 0x46 then Some(b - 0x41 + 10)
    else if 0x61 <= b <= 0x66 then Some(b - 0x61 + 10)
    else None
  }

  /** Exactly the bytes that `strconv.ParseUint` in base 16 takes: no sign, no underscore. */
  function Hex(digits: seq<Byte>): Option<nat> {
    if digits == [] then Some(0)
    else
      match (Hex(digits[..|digits| - 1]), HexValue(digits[|digits| - 1]))
      case (Some(high), Some(low)) => Some(high * 16 + low)
      case _ => None
  }

  function FirstToken(raw: seq<Byte>): Token
    requires raw != []
  {
    if raw[0] != BACKSLASH then Plain
    else if |raw| >= 6 && raw[1] == LOWER_U && Hex(raw[2..6]).Some? then Unit(Hex(raw[2..6]).value)
    else Simple
  }

  /** What is left after `n` bytes. */
  function Drop(raw: seq<Byte>, n: nat): seq<Byte> {
    if n <= |raw| then raw[n..] else []
  }

  function Tokens(raw: seq<Byte>): seq<Token>
    decreases |raw|
  {
    if raw == [] then [] else [FirstToken(raw)] + Tokens(Drop(raw, FirstToken(raw).Width()))
  }

  /** Where token `k` starts. */
  function Offset(tokens: seq<Token>, k: nat): nat
    requires k <= |tokens|
  {
    if k == 0 then 0 else Offset(tokens, k - 1) + tokens[k - 1].Width()
  }

  /** A high surrogate without a low one right after it, or a low one without a high one right before. */
  predicate Unpaired(tokens: seq<Token>, k: nat) {
    && k < |tokens|
    && (|| (tokens[k].High() && !(k + 1 < |tokens| && tokens[k + 1].Low()))
        || (tokens[k].Low() && !(k > 0 && tokens[k - 1].High())))
  }

  ghost predicate PairedBefore(tokens: seq<Token>, k: nat) {
    forall j: nat :: j < k ==> !Unpaired(tokens, j)
  }

  // ---- What the tokens stand for ----

  predicate IsDigit(b: Byte, n: nat) {
    n < 16 && (b == "0123456789abcdef"[n] as int || b == "0123456789ABCDEF"[n] as int)
  }

  lemma HexDigitIff(b: Byte, n: nat)
    ensures HexValue(b) == Some(n) <==> IsDigit(b, n)
  {
  }

  /** Four digits of either case, the first one counting most. */
  ghost predicate Spells(digits: seq<Byte>, unit: nat) {
    exists a: nat, b: nat, c: nat, d: nat :: SpelledBy(digits, a, b, c, d) && unit == ((a * 16 + b) * 16 + c) * 16 + d
  }

  predicate SpelledBy(digits: seq<Byte>, a: nat, b: nat, c: nat, d: nat) {
    && |digits| == 4
    && IsDigit(digits[0], a) && IsDigit(digits[1], b) && IsDigit(digits[2], c) && IsDigit(digits[3], d)
  }

  lemma HexSnoc(front: seq<Byte>, b: Byte)
    ensures Hex(front + [b]) ==
            match (Hex(front), HexValue(b))
            case (Some(high), Some(low)) => Some(high * 16 + low)
            case _ => None
  {
    assert (front + [b])[..|front|] == front;
  }

  lemma HexOfFour(a: Byte, b: Byte, c: Byte, d: Byte)
    ensures Hex([a, b, c, d]) ==
            match (HexValue(a), HexValue(b), HexValue(c), HexValue(d))
            case (Some(k), Some(l), Some(m), Some(n)) => Some(((k * 16 + l) * 16 + m) * 16 + n)
            case _ => None
  {
    hide Hex, HexValue;
    HexNothing();
    HexSnoc([], a);
    HexSnoc([a], b);
    HexSnoc([a, b], c);
    HexSnoc([a, b, c], d);
    assert [] + [a] == [a] && [a] + [b] == [a, b] && [a, b] + [c] == [a, b, c] && [a, b, c] + [d] == [a, b, c, d];
  }

  lemma HexNothing()
    ensures Hex([]) == Some(0)
  {
  }

  lemma HexIff(digits: seq<Byte>, unit: nat)
    requires |digits| == 4
    ensures Hex(digits) == Some(unit) <==> Spells(digits, unit)
  {
    hide Hex, HexValue, IsDigit;
    assert digits == [digits[0], digits[1], digits[2], digits[3]];
    HexOfFour(digits[0], digits[1], digits[2], digits[3]);
    forall i: nat, n: nat | i < 4 ensures HexValue(digits[i]) == Some(n) <==> IsDigit(digits[i], n) {
      HexDigitIff(digits[i], n);
    }
    if Hex(digits) == Some(unit) {
      var a, b, c, d := HexValue(digits[0]), HexValue(digits[1]), HexValue(digits[2]), HexValue(digits[3]);
      assert SpelledBy(digits, a.value, b.value, c.value, d.value);
    }
    if a: nat, b: nat, c: nat, d: nat :|
      SpelledBy(digits, a, b, c, d) && unit == ((a * 16 + b) * 16 + c) * 16 + d
    {
      assert HexValue(digits[0]) == Some(a) && HexValue(digits[1]) == Some(b);
      assert HexValue(digits[2]) == Some(c) && HexValue(digits[3]) == Some(d);
    }
  }

  lemma TokensCons(raw: seq<Byte>)
    requires raw != []
    ensures Tokens(raw) == [FirstToken(raw)] + Tokens(Drop(raw, FirstToken(raw).Width()))
  {
  }

  lemma PlainToken(b: Byte, rest: seq<Byte>)
    requires b != '\\' as int
    ensures Tokens([b] + rest) == [Plain] + Tokens(rest)
  {
    hide Tokens;
    TokensCons([b] + rest);
    assert Drop([b] + rest, 1) == rest;
  }

  /** An escaped backslash, say, is read as one token, so what follows it is no escape. */
  lemma SimpleToken(b: Byte, rest: seq<Byte>)
    requires b == 'u' as int && |rest| >= 4 ==> forall unit: nat :: !Spells(rest[..4], unit)
    ensures Tokens(['\\' as int, b] + rest) == [Simple] + Tokens(rest)
  {
    hide Tokens, Hex, Spells;
    var raw := ['\\' as int, b] + rest;
    TokensCons(raw);
    assert Drop(raw, 2) == rest;
    if b == 'u' as int && |rest| >= 4 {
      assert raw[2..6] == rest[..4];
      NoUnit(rest[..4]);
    }
  }

  lemma UnitToken(digits: seq<Byte>, unit: nat, rest: seq<Byte>)
    requires |digits| == 4 && Spells(digits, unit)
    ensures Tokens(['\\' as int, 'u' as int] + digits + rest) == [Unit(unit)] + Tokens(rest)
  {
    hide Tokens, Hex, Spells;
    var raw := ['\\' as int, 'u' as int] + digits + rest;
    HexIff(digits, unit);
    TokensCons(raw);
    assert raw[2..6] == digits && Drop(raw, 6) == rest;
  }

  lemma NoUnit(digits: seq<Byte>)
    requires |digits| == 4 && forall unit: nat :: !Spells(digits, unit)
    ensures Hex(digits).None?
  {
    hide Hex, Spells;
    if Hex(digits).Some? {
      HexIff(digits, Hex(digits).value);
    }
  }

  /** The units of a character are a high and a low surrogate, or none of them. */
  lemma SurrogatesOfCharacter(c: char)
    ensures var u := KeyOrder.Units(c);
            if |u| == 2 then u[0] >= 0 && u[1] >= 0 && Unit(u[0]).High() && Unit(u[1]).Low()
            else |u| == 1 && u[0] >= 0 && !Unit(u[0]).High() && !Unit(u[0]).Low()
  {
    KeyOrder.UnitsShape(c);
  }

  /** And every pair of them is a character. */
  lemma PairIsCharacter(high: Token, low: Token) returns (c: char)
    requires high.High() && low.Low()
    ensures KeyOrder.Units(c) == [high.value, low.value]
  {
    c := KeyOrder.PairIsCharacter(high.value, low.value);
  }

  // ---- The scanner ----

  /** The unit of the escape at `offset`, if there is one. */
  function UnicodeEscape(raw: seq<Byte>, offset: nat): Option<nat> {
    if offset + 6 > |raw| then None
    else if raw[offset] != BACKSLASH || raw[offset + 1] != LOWER_U then None
    else Hex(raw[offset + 2..offset + 6])
  }

  /** The last byte of the escape, or pair of escapes, that starts at `offset`; or the offset of the error. */
  function UnicodeEscapeEnd(raw: seq<Byte>, offset: nat): (r: Result<nat, nat>)
    ensures r.Ok? ==> r.value > offset
    ensures r.Err? ==> r.error == offset
  {
    match UnicodeEscape(raw, offset)
    case None => Ok(offset + 1)
    case Some(unit) =>
      if unit < 0xD800 || unit > 0xDFFF then Ok(offset + 5)
      else
        var low := UnicodeEscape(raw, offset + 6);
        if unit >= 0xDC00 || low.None? || low.value < 0xDC00 || low.value > 0xDFFF then Err(offset)
        else Ok(offset + 11)
  }

  lemma EscapeIsToken(raw: seq<Byte>, offset: nat)
    ensures UnicodeEscape(raw, offset).Some? <==> offset < |raw| && FirstToken(raw[offset..]).Unit?
    ensures UnicodeEscape(raw, offset).Some? ==> FirstToken(raw[offset..]) == Unit(UnicodeEscape(raw, offset).value)
    ensures offset < |raw| && raw[offset] == BACKSLASH ==> !FirstToken(raw[offset..]).Plain?
  {
    if offset + 6 <= |raw| {
      assert raw[offset..][2..6] == raw[offset + 2..offset + 6];
      assert raw[offset..][0] == raw[offset] && raw[offset..][1] == raw[offset + 1];
    }
  }

  /** The scanner has reached the start of token `k`. */
  ghost predicate At(raw: seq<Byte>, k: nat, offset: nat) {
    && k <= |Tokens(raw)|
    && Offset(Tokens(raw), k) == offset
    && Tokens(Drop(raw, offset)) == Tokens(raw)[k..]
    && (k < |Tokens(raw)| <==> offset < |raw|)
  }

  lemma Advance(raw: seq<Byte>, k: nat, offset: nat)
    requires At(raw, k, offset) && offset < |raw|
    ensures k < |Tokens(raw)| && Tokens(raw)[k] == FirstToken(raw[offset..])
    ensures At(raw, k + 1, offset + Tokens(raw)[k].Width())
    ensures Offset(Tokens(raw), k) == offset
    ensures k + 1 < |Tokens(raw)| <==> offset + Tokens(raw)[k].Width() < |raw|
  {
    hide Tokens, FirstToken;
    var tokens, rest := Tokens(raw), raw[offset..];
    TokensCons(rest);
    assert Tokens(rest)[1..] == Tokens(Drop(rest, FirstToken(rest).Width()));
    assert Drop(raw, offset) == rest;
    assert tokens[k..][0] == tokens[k] && tokens[k..][1..] == tokens[k + 1..];
    assert Drop(rest, tokens[k].Width()) == Drop(raw, offset + tokens[k].Width());
    TokensEmpty(Drop(raw, offset + tokens[k].Width()));
    assert |tokens[k + 1..]| == |tokens| - (k + 1);
  }

  lemma TokensEmpty(raw: seq<Byte>)
    ensures Tokens(raw) == [] <==> raw == []
  {
  }

  /** What the end of an escape says about the tokens from there. */
  lemma EscapeEnds(raw: seq<Byte>, k: nat, offset: nat)
    requires At(raw, k, offset) && offset < |raw| && raw[offset] == BACKSLASH
    requires k > 0 ==> !Tokens(raw)[k - 1].High()
    requires PairedBefore(Tokens(raw), k)
    ensures k < |Tokens(raw)|
    ensures UnicodeEscapeEnd(raw, offset).Err? <==> Unpaired(Tokens(raw), k)
    ensures Offset(Tokens(raw), k) == offset
    ensures UnicodeEscapeEnd(raw, offset).Ok? ==>
              exists after: nat ::
                && k < after <= |Tokens(raw)|
                && At(raw, after, UnicodeEscapeEnd(raw, offset).value + 1)
                && PairedBefore(Tokens(raw), after) && !Tokens(raw)[after - 1].High()
  {
    hide Tokens, At, FirstToken, UnicodeEscape;
    var tokens := Tokens(raw);
    Advance(raw, k, offset);
    EscapeIsToken(raw, offset);
    EscapeIsToken(raw, offset + 6);
    var next := offset + tokens[k].Width();
    if k + 1 < |tokens| {
      Advance(raw, k + 1, next);
    }
    if UnicodeEscapeEnd(raw, offset).Ok? {
      var after := if UnicodeEscapeEnd(raw, offset).value == offset + 11 then k + 2 else k + 1;
      assert At(raw, after, UnicodeEscapeEnd(raw, offset).value + 1);
      assert PairedBefore(tokens, after);
      assert !tokens[after - 1].High();
    }
  }

  lemma PlainAdvance(raw: seq<Byte>, k: nat, offset: nat)
    requires At(raw, k, offset) && offset < |raw| && raw[offset] != BACKSLASH
    requires PairedBefore(Tokens(raw), k) && (k > 0 ==> !Tokens(raw)[k - 1].High())
    ensures At(raw, k + 1, offset + 1) && k < |Tokens(raw)| && !Tokens(raw)[k].High()
    ensures PairedBefore(Tokens(raw), k + 1)
  {
    Advance(raw, k, offset);
    assert raw[offset..][0] == raw[offset];
  }

  lemma AtEnd(raw: seq<Byte>, k: nat, offset: nat)
    requires At(raw, k, offset) && offset >= |raw| && PairedBefore(Tokens(raw), k)
    ensures forall j: nat :: !Unpaired(Tokens(raw), j)
  {
  }

  /** Accepts exactly the inputs without an unpaired surrogate escape, and otherwise reports the first one. */
  method ValidateUnicode(raw: seq<Byte>) returns (bad: Option<nat>)
    ensures bad.None? <==> forall k: nat :: !Unpaired(Tokens(raw), k)
    ensures bad.Some? ==> exists k: nat ::
              Unpaired(Tokens(raw), k) && bad.value == Offset(Tokens(raw), k) && PairedBefore(Tokens(raw), k)
  {
    var i := 0;
    ghost var k, tokens := 0, Tokens(raw);
    hide *;
    Start(raw);
    while i < |raw|
      invariant At(raw, k, i) && k <= |tokens| && PairedBefore(tokens, k) && (k > 0 ==> !tokens[k - 1].High())
      decreases |raw| - i
    {
      if raw[i] != BACKSLASH {
        PlainAdvance(raw, k, i);
        k := k + 1;
        i := i + 1;
        continue;
      }
      EscapeEnds(raw, k, i);
      var end := UnicodeEscapeEnd(raw, i);
      if end.Err? {
        return Some(end.error);
      }
      ghost var after: nat :|
        && k < after <= |tokens|
        && At(raw, after, end.value + 1)
        && PairedBefore(tokens, after) && !tokens[after - 1].High();
      k := after;
      i := end.value;
      i := i + 1;
    }
    AtEnd(raw, k, i);
    return None;
  }

  lemma Start(raw: seq<Byte>)
    ensures At(raw, 0, 0) && PairedBefore(Tokens(raw), 0)
  {
    assert Drop(raw, 0) == raw && Tokens(raw)[0..] == Tokens(raw);
  }
}
