/** Canonical JSON (a2acrypto/canonical.go; RFC 8785): the printer, and a parser that undoes it. */
module Canonical {
  import opened Json
  import KeyOrder
  import Utf8

  // ---- What is printed ----

  function HexDigit(n: nat): char
    requires n < 16
  {
    "0123456789abcdef"[n]
  }

  /** Only the quote, the backslash and the control characters are escaped. */
  function Escape(c: char): (s: string)
    ensures s != []
  {
    var n := c as int;
    if c == '\"' then "\\\""
    else if c == '\\' then "\\\\"
    else if n == 8 then "\\b"
    else if n == 12 then "\\f"
    else if n == 10 then "\\n"
    else if n == 13 then "\\r"
    else if n == 9 then "\\t"
    else if n < 0x20 then "\\u00" + [HexDigit(n / 16), HexDigit(n % 16)]
    else [c]
  }

  function Escaped(s: string): string {
    if s == [] then [] else Escape(s[0]) + Escaped(s[1..])
  }

  function PrintString(s: string): string {
    "\"" + Escaped(s) + "\""
  }

  /** A printed number is a non-empty token over these characters. */
  predicate TokenChar(c: char) {
    '0' <= c <= '9' || c == '-' || c == '+' || c == '.' || c == 'e' || c == 'E'
  }

  predicate IsToken(s: string) {
    s != [] && forall i :: 0 <= i < |s| ==> TokenChar(s[i])
  }

  /** A comma before every element but the first. */
  function Separated(first: bool, body: string): string {
    if first then body else "," + body
  }

  /** A member name, and the text from its value on. */
  function MemberText(k: string, value: string): string {
    PrintString(k) + (":" + value)
  }

  /** Prints a value whose numbers are already in printed form. */
  ghost function Print(v: Value): string
    decreases v, 0
  {
    match v
    case Null => "null"
    case Bool(b) => if b then "true" else "false"
    case Number(token) => token
    case String(s) => PrintString(s)
    case Array(items) => "[" + (PrintItems(items, true) + "]")
    case Object(members) => "{" + (PrintMembers(v, KeyOrder.SortedKeys(members.Keys), true) + "}")
  }

  ghost function PrintItems(items: seq<Value>, first: bool): string
    decreases items, 0
  {
    if items == [] then "" else Separated(first, Print(items[0]) + PrintItems(items[1..], false))
  }

  /** The members with the given names, in that order. */
  ghost function PrintMembers(v: Value, keys: seq<string>, first: bool): string
    requires v.Object? && forall k :: k in keys ==> k in v.members
    decreases v, 0, |keys|
  {
    if keys == [] then ""
    else Separated(first, MemberText(keys[0], Print(v.members[keys[0]]) + PrintMembers(v, keys[1..], false)))
  }

  // ---- A parser for what is printed ----

  type Parsed<T> = Option<(T, string)>

  function HexValue(c: char): Option<nat> {
    if '0' <= c <= '9' then Some(c as int - '0' as int)
    else if 'a' <= c <= 'f' then Some(c as int - 'a' as int + 10)
    else None
  }

  /** One possibly escaped character of a string body. */
  function Unescape(s: string): (r: Parsed<char>)
    requires s != []
    ensures r.Some? ==> |r.value.1| < |s|
  {
    if s[0] != '\\' then (if s[0] as int < 0x20 then None else Some((s[0], s[1..])))
    else if |s| < 2 then None
    else if s[1] == '\"' || s[1] == '\\' then Some((s[1], s[2..]))
    else if s[1] == 'b' then Some((8 as char, s[2..]))
    else if s[1] == 'f' then Some((12 as char, s[2..]))
    else if s[1] == 'n' then Some((10 as char, s[2..]))
    else if s[1] == 'r' then Some((13 as char, s[2..]))
    else if s[1] == 't' then Some((9 as char, s[2..]))
    else if s[1] != 'u' || |s| < 6 || s[2] != '0' || s[3] != '0' then None
    else
      match (HexValue(s[4]), HexValue(s[5]))
      case (Some(high), Some(low)) => Some(((high * 16 + low) as char, s[6..]))
      case _ => None
  }

  /** The body of a string up to its closing quote. */
  function ParseString(s: string): (r: Parsed<string>)
    ensures r.Some? ==> |r.value.1| < |s|
    decreases |s|
  {
    if s == [] then None
    else if s[0] == '\"' then Some(("", s[1..]))
    else
      match Unescape(s)
      case None => None
      case Some((c, rest)) =>
        match ParseString(rest)
        case None => None
        case Some((tail, after)) => Some(([c] + tail, after))
  }

  function TokenLength(s: string): (n: nat)
    ensures n <= |s|
  {
    if s == [] || !TokenChar(s[0]) then 0 else 1 + TokenLength(s[1..])
  }

  function Expect(s: string, word: string, v: Value): (r: Parsed<Value>)
    requires word != []
    ensures r.Some? ==> |r.value.1| < |s|
  {
    if word <= s then Some((v, s[|word|..])) else None
  }

  function ParseValue(s: string): (r: Parsed<Value>)
    ensures r.Some? ==> |r.value.1| < |s|
    decreases |s|, 0
  {
    if s == [] then None
    else if s[0] == 'n' then Expect(s, "null", Null)
    else if s[0] == 't' then Expect(s, "true", Bool(true))
    else if s[0] == 'f' then Expect(s, "false", Bool(false))
    else if s[0] == '\"' then
      (match ParseString(s[1..]) case None => None case Some((chars, rest)) => Some((String(chars), rest)))
    else if s[0] == '[' then
      (match ParseItems(s[1..], true) case None => None case Some((items, rest)) => Some((Array(items), rest)))
    else if s[0] == '{' then
      (match ParseMembers(s[1..], true) case None => None case Some((members, rest)) => Some((Object(members), rest)))
    else if TokenChar(s[0]) then Some((Number(s[..TokenLength(s)]), s[TokenLength(s)..]))
    else None
  }

  function ParseItems(s: string, first: bool): (r: Parsed<seq<Value>>)
    ensures r.Some? ==> |r.value.1| < |s|
    decreases |s|, 1
  {
    if s == [] then None
    else if s[0] == ']' then Some(([], s[1..]))
    else if !first && s[0] != ',' then None
    else
      match ParseValue(if first then s else s[1..])
      case None => None
      case Some((v, rest)) =>
        match ParseItems(rest, false)
        case None => None
        case Some((items, after)) => Some(([v] + items, after))
  }

  function ParseMembers(s: string, first: bool): (r: Parsed<map<string, Value>>)
    ensures r.Some? ==> |r.value.1| < |s|
    decreases |s|, 1
  {
    if s == [] then None
    else if s[0] == '}' then Some((map[], s[1..]))
    else if !first && s[0] != ',' then None
    else
      var t := if first then s else s[1..];
      if t == [] || t[0] != '\"' then None
      else
        match ParseString(t[1..])
        case None => None
        case Some((k, colon)) =>
          if colon == [] || colon[0] != ':' then None
          else
            match ParseValue(colon[1..])
            case None => None
            case Some((v, rest)) =>
              match ParseMembers(rest, false)
              case None => None
              case Some((members, after)) => Some((map[k := v] + members, after))
  }

  // ---- The parser undoes the printer ----

  lemma UnescapeControl(high: char, low: char, rest: string)
    requires HexValue(high).Some? && HexValue(low).Some?
    ensures Unescape("\\u00" + [high, low] + rest) ==
            Some(((HexValue(high).value * 16 + HexValue(low).value) as char, rest))
  {
    var s := "\\u00" + [high, low] + rest;
    assert s[6..] == rest && s[..4] == "\\u00";
    assert s[0] == '\\' && s[1] == 'u' && s[2] == '0' && s[3] == '0' && s[4] == high && s[5] == low;
  }

  lemma UnescapeEscape(c: char, rest: string)
    ensures Unescape(Escape(c) + rest) == Some((c, rest))
  {
    var n, e := c as int, Escape(c);
    if |e| == 6 {
      assert HexValue(HexDigit(n / 16)) == Some(n / 16) && HexValue(HexDigit(n % 16)) == Some(n % 16);
      UnescapeControl(HexDigit(n / 16), HexDigit(n % 16), rest);
    } else {
      assert (e + rest)[0] == e[0] && (|e| == 2 ==> (e + rest)[1] == e[1]) && (e + rest)[|e|..] == rest;
    }
  }

  // ---- Which spelling is printed ----

  /** The control characters with a two-character escape, the quote and the backslash. */
  const SHORT_ESCAPES := {
    ('\"', '\"'), ('\\', '\\'), (8 as char, 'b'), (9 as char, 't'),
    (10 as char, 'n'), (12 as char, 'f'), (13 as char, 'r')
  }

  /** Section 3.2.2.2 of RFC 8785: a short escape wherever there is one, four lower-case digits for the
      other control characters, and every other character as it is. */
  lemma EscapeForms(c: char)
    ensures forall x :: Escape(c) == ['\\', x] <==> (c, x) in SHORT_ESCAPES
    ensures |Escape(c)| == 1 <==> 0x20 <= c as int && c != '\"' && c != '\\'
    ensures |Escape(c)| == 1 ==> Escape(c) == [c]
    ensures |Escape(c)| == 1 || |Escape(c)| == 2 || LongEscape(c, c as int / 16, c as int % 16)
  {
  }

  predicate LongEscape(c: char, high: nat, low: nat) {
    high < 16 && low < 16 && Escape(c) == "\\u00" + ["0123456789abcdef"[high], "0123456789abcdef"[low]]
  }

  /** What is printed is the one shortest spelling that reads back. */
  lemma ShortestSpelling(c: char, s: string)
    requires s != [] && s[0] != '\"' && Unescape(s) == Some((c, ""))
    ensures |Escape(c)| < |s| || Escape(c) == s
  {
    if s[0] != '\\' {
      assert s == [s[0]] + s[1..];
    } else if |s| >= 2 && s[1] != 'u' {
      assert s == [s[0], s[1]] + s[2..];
    } else {
      assert s == s[..6] + s[6..];
    }
  }

  lemma {:induction false} ParseEscaped(s: string, rest: string)
    ensures ParseString(Escaped(s) + "\"" + rest) == Some((s, rest))
  {
    var text := Escaped(s) + "\"" + rest;
    if s == [] {
      assert text[1..] == rest;
    } else {
      var tail := Escaped(s[1..]) + "\"" + rest;
      assert text == Escape(s[0]) + tail;
      UnescapeEscape(s[0], tail);
      assert text[0] == Escape(s[0])[0];
      ParseEscaped(s[1..], rest);
      assert s == [s[0]] + s[1..];
    }
  }

  lemma {:induction false} TokenEnds(token: string, rest: string)
    requires forall i :: 0 <= i < |token| ==> TokenChar(token[i])
    requires rest == [] || !TokenChar(rest[0])
    ensures TokenLength(token + rest) == |token|
  {
    if token == [] {
      assert token + rest == rest;
    } else {
      assert (token + rest)[1..] == token[1..] + rest;
      TokenEnds(token[1..], rest);
    }
  }

  /** Every number in the value is a printed token. */
  predicate NumbersPrinted(v: Value) {
    match v
    case Number(token) => IsToken(token)
    case Array(items) => forall i :: 0 <= i < |items| ==> NumbersPrinted(items[i])
    case Object(members) => forall k :: k in members ==> NumbersPrinted(members[k])
    case _ => true
  }

  /** The text that follows a value cannot continue a number. */
  predicate Ends(rest: string) {
    rest == [] || !TokenChar(rest[0])
  }

  lemma PrintStarts(v: Value)
    requires NumbersPrinted(v)
    ensures Print(v) != [] && Print(v)[0] != ']' && Print(v)[0] != ','
  {
  }

  // How the parser proceeds on a value, an item and a member whose pieces it can parse.

  lemma ValueOfString(chars: string, rest: string)
    ensures ParseValue(PrintString(chars) + rest) == Some((String(chars), rest))
  {
    hide ParseString, Escaped;
    ParseEscaped(chars, rest);
    var s := PrintString(chars) + rest;
    assert s[0] == '\"' && s[1..] == Escaped(chars) + "\"" + rest;
  }

  lemma ValueOfScalar(v: Value, rest: string)
    requires v.Null? || v.Bool? || (v.Number? && IsToken(v.text) && Ends(rest))
    ensures ParseValue(Print(v) + rest) == Some((v, rest))
  {
    var s := Print(v) + rest;
    assert s[..|Print(v)|] == Print(v) && s[|Print(v)|..] == rest && s[0] == Print(v)[0];
    if v.Number? {
      TokenEnds(v.text, rest);
    }
  }

  lemma ValueOfArray(body: string, items: seq<Value>, rest: string)
    requires ParseItems(body, true) == Some((items, rest))
    ensures ParseValue("[" + body) == Some((Array(items), rest))
  {
    assert ("[" + body)[0] == '[' && ("[" + body)[1..] == body;
  }

  lemma ValueOfObject(body: string, members: map<string, Value>, rest: string)
    requires ParseMembers(body, true) == Some((members, rest))
    ensures ParseValue("{" + body) == Some((Object(members), rest))
  {
    assert ("{" + body)[0] == '{' && ("{" + body)[1..] == body;
  }

  // Names for the texts involved, so that the main induction need not look into concatenations.

  ghost function Followed(v: Value, rest: string): string {
    Print(v) + rest
  }

  ghost function ItemsThen(items: seq<Value>, first: bool, rest: string): string {
    PrintItems(items, first) + ("]" + rest)
  }

  ghost function MembersThen(v: Value, keys: seq<string>, first: bool, rest: string): string
    requires v.Object? && forall k :: k in keys ==> k in v.members
  {
    PrintMembers(v, keys, first) + ("}" + rest)
  }

  lemma Associative(a: string, b: string, c: string)
    ensures (a + b) + c == a + (b + c)
  {
  }

  lemma SeparatedAppend(first: bool, body: string, rest: string)
    ensures Separated(first, body) + rest == Separated(first, body + rest)
  {
  }

  lemma MemberTextAppend(k: string, value: string, rest: string)
    ensures MemberText(k, value) + rest == MemberText(k, value + rest)
  {
    Associative(":", value, rest);
    Associative(PrintString(k), ":" + value, rest);
  }

  lemma ItemsStep(body: string, first: bool, v: Value, after: string, items: seq<Value>, rest: string)
    requires body != [] && body[0] != ']' && body[0] != ','
    requires ParseValue(body) == Some((v, after)) && ParseItems(after, false) == Some((items, rest))
    ensures ParseItems(Separated(first, body), first) == Some(([v] + items, rest))
  {
    assert ("," + body)[0] == ',' && ("," + body)[1..] == body;
  }

  lemma MembersStep(k: string, value: string, first: bool, v: Value, after: string, members: map<string, Value>,
                    rest: string)
    requires ParseValue(value) == Some((v, after)) && ParseMembers(after, false) == Some((members, rest))
    ensures ParseMembers(Separated(first, MemberText(k, value)), first) == Some((map[k := v] + members, rest))
  {
    var body, colon := MemberText(k, value), ":" + value;
    assert ("," + body)[0] == ',' && ("," + body)[1..] == body;
    MemberTextParses(k, value);
    assert colon[0] == ':' && colon[1..] == value;
  }

  lemma MemberTextParses(k: string, value: string)
    ensures MemberText(k, value) != [] && MemberText(k, value)[0] == '\"'
    ensures ParseString(MemberText(k, value)[1..]) == Some((k, ":" + value))
  {
    assert MemberText(k, value)[1..] == Escaped(k) + "\"" + (":" + value);
    ParseEscaped(k, ":" + value);
  }

  lemma ItemsText(items: seq<Value>, first: bool, rest: string)
    requires items != []
    ensures ItemsThen(items, first, rest) == Separated(first, Followed(items[0], ItemsThen(items[1..], false, rest)))
  {
    var head, tail := Print(items[0]), PrintItems(items[1..], false);
    SeparatedAppend(first, head + tail, "]" + rest);
    Associative(head, tail, "]" + rest);
  }

  lemma MembersText(v: Value, keys: seq<string>, first: bool, rest: string)
    requires v.Object? && keys != [] && forall k :: k in keys ==> k in v.members
    ensures MembersThen(v, keys, first, rest) ==
            Separated(first, MemberText(keys[0], Followed(v.members[keys[0]], MembersThen(v, keys[1..], false, rest))))
  {
    var k, head, tail := keys[0], Print(v.members[keys[0]]), PrintMembers(v, keys[1..], false);
    SeparatedAppend(first, MemberText(k, head + tail), "}" + rest);
    MemberTextAppend(k, head + tail, "}" + rest);
    Associative(head, tail, "}" + rest);
  }

  lemma ItemsEnd(items: seq<Value>, rest: string)
    ensures Ends(ItemsThen(items, false, rest))
  {
    assert ItemsThen(items, false, rest)[0] == if items == [] then ']' else ',';
  }

  lemma MembersEnd(v: Value, keys: seq<string>, rest: string)
    requires v.Object? && forall k :: k in keys ==> k in v.members
    ensures Ends(MembersThen(v, keys, false, rest))
  {
    assert MembersThen(v, keys, false, rest)[0] == if keys == [] then '}' else ',';
  }

  lemma FollowedStarts(v: Value, rest: string)
    requires NumbersPrinted(v)
    ensures Followed(v, rest) != [] && Followed(v, rest)[0] != ']' && Followed(v, rest)[0] != ','
  {
    PrintStarts(v);
  }

  /** For every value and every text after it. */
  lemma {:induction false} ParsePrint(v: Value, rest: string)
    requires NumbersPrinted(v) && Ends(rest)
    ensures ParseValue(Followed(v, rest)) == Some((v, rest))
    decreases v, 0
  {
    hide ParseValue, ParseItems, ParseMembers, ItemsThen, MembersThen;
    match v
    case String(chars) => ValueOfString(chars, rest);
    case Array(items) =>
      ParsePrintItems(items, true, rest);
      ValueOfArray(ItemsThen(items, true, rest), items, rest);
      ArrayText(items, rest);
    case Object(members) =>
      var keys := KeyOrder.SortedKeys(members.Keys);
      KeysAreMembers(members);
      ParsePrintMembers(v, keys, true, rest);
      ValueOfObject(MembersThen(v, keys, true, rest), members, rest);
      ObjectText(v, rest);
    case _ => ValueOfScalar(v, rest);
  }

  lemma KeysAreMembers(members: map<string, Value>)
    ensures forall k :: k in KeyOrder.SortedKeys(members.Keys) <==> k in members
    ensures Chosen(members, KeyOrder.SortedKeys(members.Keys)) == members
  {
    var keys := KeyOrder.SortedKeys(members.Keys);
    assert forall k :: k in keys <==> k in KeyOrder.Elements(keys);
  }

  lemma ArrayText(items: seq<Value>, rest: string)
    ensures Followed(Array(items), rest) == "[" + ItemsThen(items, true, rest)
  {
  }

  lemma ObjectText(v: Value, rest: string)
    requires v.Object? && forall k :: k in KeyOrder.SortedKeys(v.members.Keys) ==> k in v.members
    ensures Followed(v, rest) == "{" + MembersThen(v, KeyOrder.SortedKeys(v.members.Keys), true, rest)
  {
  }

  lemma {:induction false} ParsePrintItems(items: seq<Value>, first: bool, rest: string)
    requires forall i :: 0 <= i < |items| ==> NumbersPrinted(items[i])
    ensures ParseItems(ItemsThen(items, first, rest), first) == Some((items, rest))
    decreases items, 0
  {
    if items == [] {
      assert ItemsThen(items, first, rest) == "]" + rest && ("]" + rest)[1..] == rest;
    } else {
      hide ParseValue, ParseItems, ItemsThen, Followed, Separated;
      var after := ItemsThen(items[1..], false, rest);
      ItemsText(items, first, rest);
      ItemsEnd(items[1..], rest);
      FollowedStarts(items[0], after);
      ParsePrint(items[0], after);
      ParsePrintItems(items[1..], false, rest);
      ItemsStep(Followed(items[0], after), first, items[0], after, items[1..], rest);
      assert items == [items[0]] + items[1..];
    }
  }

  ghost function Chosen(members: map<string, Value>, keys: seq<string>): map<string, Value> {
    map k | k in keys && k in members :: members[k]
  }

  lemma {:induction false} ParsePrintMembers(v: Value, keys: seq<string>, first: bool, rest: string)
    requires v.Object? && NumbersPrinted(v) && forall k :: k in keys ==> k in v.members
    ensures ParseMembers(MembersThen(v, keys, first, rest), first) == Some((Chosen(v.members, keys), rest))
    decreases v, 0, |keys|
  {
    if keys == [] {
      assert MembersThen(v, keys, first, rest) == "}" + rest && ("}" + rest)[1..] == rest;
      assert Chosen(v.members, keys) == map[];
    } else {
      hide ParseValue, ParseMembers, MembersThen, Followed, Separated, MemberText;
      var k, after := keys[0], MembersThen(v, keys[1..], false, rest);
      MembersText(v, keys, first, rest);
      MembersEnd(v, keys[1..], rest);
      ParsePrint(v.members[k], after);
      ParsePrintMembers(v, keys[1..], false, rest);
      MembersStep(k, Followed(v.members[k], after), first, v.members[k], after, Chosen(v.members, keys[1..]), rest);
      ChosenStep(v.members, keys);
    }
  }

  lemma ChosenStep(members: map<string, Value>, keys: seq<string>)
    requires keys != [] && keys[0] in members
    ensures map[keys[0] := members[keys[0]]] + Chosen(members, keys[1..]) == Chosen(members, keys)
  {
    assert forall k :: k in keys <==> k == keys[0] || k in keys[1..];
  }

  // ---- Canonical form ----

  /** `canonicalNumber`, which goes through `strconv`, is a parameter. */
  type NumberFormat = string -> string

  /** The value with every number in printed form. */
  function Normalized(v: Value, format: NumberFormat): Value {
    match v
    case Number(text) => Number(format(text))
    case Array(items) => Array(seq(|items|, i requires 0 <= i < |items| => Normalized(items[i], format)))
    case Object(members) => Object(map k | k in members :: Normalized(members[k], format))
    case _ => v
  }

  /** Only numbers change: with a format that leaves them alone, nothing does. */
  lemma NormalizedIsValue(v: Value, format: NumberFormat)
    requires forall text :: format(text) == text
    ensures Normalized(v, format) == v
  {
    match v
    case Array(items) =>
      forall i | 0 <= i < |items| ensures Normalized(items[i], format) == items[i] {
        NormalizedIsValue(items[i], format);
      }
    case Object(members) =>
      forall k | k in members ensures Normalized(members[k], format) == members[k] {
        NormalizedIsValue(members[k], format);
      }
    case _ =>
  }

  /** And every number does, however deep. */
  lemma NormalizedIsPrinted(v: Value, format: NumberFormat)
    requires forall text :: IsToken(format(text))
    ensures NumbersPrinted(Normalized(v, format))
  {
    match v
    case Array(items) =>
      forall i | 0 <= i < |items| ensures NumbersPrinted(Normalized(items[i], format)) {
        NormalizedIsPrinted(items[i], format);
      }
    case Object(members) =>
      forall k | k in members ensures NumbersPrinted(Normalized(members[k], format)) {
        NormalizedIsPrinted(members[k], format);
      }
    case _ =>
  }

  function DropSignatures(v: Value): Value {
    if v.Object? then Object(v.members - {"signatures"}) else v
  }

  /** Every other member stays, at the top and below. */
  lemma KeepsOtherMembers(v: Value)
    ensures v.Object? <==> DropSignatures(v).Object?
    ensures !v.Object? ==> DropSignatures(v) == v
    ensures v.Object? ==> DropSignatures(v).members.Keys == v.members.Keys - {"signatures"}
    ensures v.Object? ==>
              forall k :: k in v.members && k != "signatures" ==> DropSignatures(v).members[k] == v.members[k]
  {
  }

  /** Two cards agree without the signatures exactly when they agree on every other member. */
  lemma SameWithoutSignaturesIff(a: map<string, Value>, b: map<string, Value>)
    ensures DropSignatures(Object(a)) == DropSignatures(Object(b)) <==>
            forall k :: k != "signatures" ==> (k in a <==> k in b) && (k in a && k in b ==> a[k] == b[k])
  {
    var x, y := a - {"signatures"}, b - {"signatures"};
    if x == y {
      forall k | k != "signatures" ensures (k in a <==> k in b) && (k in a && k in b ==> a[k] == b[k]) {
        assert k in a <==> k in x;
        assert k in b <==> k in y;
      }
    }
  }

  ghost function CanonicalBytes(v: Value, format: NumberFormat): seq<Utf8.Byte> {
    Utf8.Encode(Print(Normalized(DropSignatures(v), format)))
  }

  /** Two cards have the same canonical bytes exactly when they agree without the top-level
      signatures, numbers being compared by their printed token. */
  lemma {:induction false} CanonicalForm(a: Value, b: Value, format: NumberFormat)
    requires NumbersPrinted(Normalized(DropSignatures(a), format))
    requires NumbersPrinted(Normalized(DropSignatures(b), format))
    ensures CanonicalBytes(a, format) == CanonicalBytes(b, format) <==>
            Normalized(DropSignatures(a), format) == Normalized(DropSignatures(b), format)
  {
    var x, y := Normalized(DropSignatures(a), format), Normalized(DropSignatures(b), format);
    if CanonicalBytes(a, format) == CanonicalBytes(b, format) {
      Utf8.EncodeInjective(Print(x), Print(y));
      ParsePrint(x, "");
      ParsePrint(y, "");
      assert Followed(x, "") == Print(x) && Followed(y, "") == Print(y);
    }
  }

  // ---- An example: no space, members in order, short escapes ----

  lemma PrintArrayExample()
    ensures Print(Array([Null, Bool(true), Number("1")])) == "[null,true,1]"
  {
    var items := [Null, Bool(true), Number("1")];
    assert items[1..] == [Bool(true), Number("1")] && items[1..][1..] == [Number("1")];
    assert PrintItems([Number("1")], false) == ",1";
    assert PrintItems([Bool(true), Number("1")], false) == ",true,1";
  }

  lemma SortedKeysExample()
    ensures KeyOrder.SortedKeys({"a", "b"}) == ["a", "b"]
  {
    assert KeyOrder.Elements(["a", "b"]) == {"a", "b"};
    assert KeyOrder.Encode("a") == [0x61] && KeyOrder.Encode("b") == [0x62];
    KeyOrder.SortedUnique(KeyOrder.SortedKeys({"a", "b"}), ["a", "b"]);
  }

  lemma MemberExample(value: string)
    ensures MemberText("a", value) == "\"a\":" + value && MemberText("b", value) == "\"b\":" + value
    ensures PrintString("x\n") == "\"x\\n\""
  {
    assert "x\n"[1..] == "\n";
  }

  lemma LastMember(v: Value)
    requires v.Object? && "b" in v.members
    ensures PrintMembers(v, ["b"], false) == ",\"b\":" + Print(v.members["b"])
  {
    var value := Print(v.members["b"]);
    assert ["b"][1..] == [] && PrintMembers(v, [], false) == "";
    assert value + "" == value;
    MemberExample(value);
  }

  lemma FirstMember(v: Value, last: string)
    requires v.Object? && "a" in v.members && "b" in v.members && last == PrintMembers(v, ["b"], false)
    ensures PrintMembers(v, ["a", "b"], true) == "\"a\":" + Print(v.members["a"]) + last
  {
    assert ["a", "b"][1..] == ["b"];
    MemberExample(Print(v.members["a"]) + last);
  }

  lemma PrintObjectExample(x: Value, y: Value)
    ensures Print(Object(map["b" := y, "a" := x])) == "{\"a\":" + Print(x) + ",\"b\":" + Print(y) + "}"
  {
    hide PrintString, MemberText, Separated, PrintMembers, PrintItems;
    var v := Object(map["b" := y, "a" := x]);
    assert v.members.Keys == {"a", "b"};
    SortedKeysExample();
    LastMember(v);
    FirstMember(v, PrintMembers(v, ["b"], false));
  }
}
