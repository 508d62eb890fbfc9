/** Writing canonical JSON to a buffer, and `canonicalizeJSON` itself (a2acrypto/canonical.go). */
module CanonicalWriter {
  import opened Json
  import opened Canonical
  import KeyOrder
  import SurrogateScanner
  import Utf8

  /** The bytes in the buffer after a string was written behind `before`. */
  function Appended(before: seq<Utf8.Byte>, text: string): seq<Utf8.Byte> {
    before + Utf8.Encode(text)
  }

  lemma AppendedTwice(before: seq<Utf8.Byte>, s: string, t: string)
    ensures Appended(Appended(before, s), t) == Appended(before, s + t)
  {
    Utf8.EncodeConcat(s, t);
  }

  // ---- Printed lists grow at the end ----

  lemma {:induction false} EscapedSnoc(s: string, c: char)
    ensures Escaped(s + [c]) == Escaped(s) + Escape(c)
  {
    if s == [] {
      assert Escaped([c]) == Escape(c) + Escaped([]);
    } else {
      assert (s + [c])[1..] == s[1..] + [c];
      EscapedSnoc(s[1..], c);
      Associative(Escape(s[0]), Escaped(s[1..]), Escape(c));
    }
  }

  lemma {:induction false} ItemsSnoc(items: seq<Value>, v: Value, first: bool)
    ensures PrintItems(items + [v], first) ==
            PrintItems(items, first) + Separated(first && items == [], Print(v))
  {
    if items == [] {
      assert (items + [v])[1..] == [];
    } else {
      assert (items + [v])[1..] == items[1..] + [v];
      ItemsSnoc(items[1..], v, false);
      var head, tail, last := Print(items[0]), PrintItems(items[1..], false), Separated(false, Print(v));
      Associative(head, tail, last);
      SeparatedAppend(first, head + tail, last);
    }
  }

  lemma {:induction false} MembersSnoc(v: Value, keys: seq<string>, k: string, first: bool)
    requires v.Object? && (forall k :: k in keys ==> k in v.members) && k in v.members
    ensures PrintMembers(v, keys + [k], first) ==
            PrintMembers(v, keys, first) + Separated(first && keys == [], MemberText(k, Print(v.members[k])))
  {
    if keys == [] {
      assert (keys + [k])[1..] == [];
    } else {
      assert (keys + [k])[1..] == keys[1..] + [k];
      MembersSnoc(v, keys[1..], k, false);
      var head, tail := Print(v.members[keys[0]]), PrintMembers(v, keys[1..], false);
      var last := Separated(false, MemberText(k, Print(v.members[k])));
      Associative(head, tail, last);
      MemberTextAppend(keys[0], head + tail, last);
      SeparatedAppend(first, MemberText(keys[0], head + tail), last);
    }
  }

  // ---- The writers ----

  class Buffer {
    var bytes: seq<Utf8.Byte>

    constructor ()
      ensures bytes == []
    {
      bytes := [];
    }

    method Write(text: string)
      modifies this
      ensures bytes == Appended(old(bytes), text)
    {
      bytes := bytes + Utf8.Encode(text);
    }
  }

  method WriteJCSString(w: Buffer, s: string)
    modifies w
    ensures w.bytes == Appended(old(w.bytes), PrintString(s))
  {
    hide Appended, Escape;
    ghost var before := w.bytes;
    w.Write("\"");
    assert s[..0] == "" && "\"" + Escaped("") == "\"";
    for i := 0 to |s|
      invariant w.bytes == Appended(before, "\"" + Escaped(s[..i]))
    {
      w.Write(Escape(s[i]));
      assert s[..i + 1] == s[..i] + [s[i]];
      EscapedSnoc(s[..i], s[i]);
      AppendedTwice(before, "\"" + Escaped(s[..i]), Escape(s[i]));
      Associative("\"", Escaped(s[..i]), Escape(s[i]));
    }
    w.Write("\"");
    assert s[..|s|] == s;
    AppendedTwice(before, "\"" + Escaped(s), "\"");
  }

  method WriteJCS(w: Buffer, v: Value, format: NumberFormat)
    modifies w
    ensures w.bytes == Appended(old(w.bytes), Print(Normalized(v, format)))
    decreases v, 1
  {
    match v
    case Null => w.Write("null");
    case Bool(b) => w.Write(if b then "true" else "false");
    case Number(text) => w.Write(format(text));
    case String(s) => WriteJCSString(w, s);
    case Object(_) => WriteJCSObject(w, v, format);
    case Array(_) => WriteJCSArray(w, v, format);
  }

  method WriteJCSArray(w: Buffer, v: Value, format: NumberFormat)
    requires v.Array?
    modifies w
    ensures w.bytes == Appended(old(w.bytes), Print(Normalized(v, format)))
    decreases v, 0
  {
    hide Appended, PrintItems, Print;
    ghost var before, items := w.bytes, Normalized(v, format).items;
    w.Write("[");
    ArrayStart(items);
    for i := 0 to |v.items|
      invariant w.bytes == Appended(before, ArrayFront(items, i))
    {
      if i > 0 {
        w.Write(",");
      }
      WriteJCS(w, v.items[i], format);
      ArrayGrows(before, items, i);
    }
    w.Write("]");
    ArrayCloses(before, items);
  }

  method WriteJCSObject(w: Buffer, v: Value, format: NumberFormat)
    requires v.Object?
    modifies w
    ensures w.bytes == Appended(old(w.bytes), Print(Normalized(v, format)))
    decreases v, 0
  {
    hide Appended, PrintMembers, Print, PrintString;
    ghost var before, printed := w.bytes, Normalized(v, format);
    w.Write("{");
    var keys := KeyOrder.SortedKeysOf(v.members);
    KeysAreMembers(v.members);
    assert printed.members.Keys == v.members.Keys;
    ObjectStart(printed, keys);
    for i := 0 to |keys|
      invariant w.bytes == Appended(before, ObjectFront(printed, keys, i))
    {
      assert keys[i] in v.members;
      ghost var front := w.bytes;
      if i > 0 {
        w.Write(",");
      }
      WriteJCSString(w, keys[i]);
      w.Write(":");
      WriteJCS(w, v.members[keys[i]], format);
      ObjectGrows(before, printed, keys, i);
    }
    w.Write("}");
    ObjectCloses(before, printed, keys);
  }

  // What the writers have written so far, and how it grows.

  ghost function ArrayFront(items: seq<Value>, i: nat): string
    requires i <= |items|
  {
    "[" + PrintItems(items[..i], true)
  }

  lemma ArrayStart(items: seq<Value>)
    ensures ArrayFront(items, 0) == "["
  {
  }

  /** The bytes after a separator, unless it is the first one, and a text. */
  function AfterSeparator(front: seq<Utf8.Byte>, first: bool, text: string): seq<Utf8.Byte> {
    if first then Appended(front, text) else Appended(Appended(front, ","), text)
  }

  lemma AppendedSeparated(before: seq<Utf8.Byte>, front: string, first: bool, text: string)
    ensures AfterSeparator(Appended(before, front), first, text) == Appended(before, front + Separated(first, text))
  {
    AppendedTwice(before, front, text);
    AppendedTwice(before, front, ",");
    AppendedTwice(before, front + ",", text);
    Associative(front, ",", text);
  }

  lemma ArrayGrows(before: seq<Utf8.Byte>, items: seq<Value>, i: nat)
    requires i < |items|
    ensures AfterSeparator(Appended(before, ArrayFront(items, i)), i == 0, Print(items[i])) ==
            Appended(before, ArrayFront(items, i + 1))
  {
    AppendedSeparated(before, ArrayFront(items, i), i == 0, Print(items[i]));
    assert items[..i + 1] == items[..i] + [items[i]];
    ItemsSnoc(items[..i], items[i], true);
    Associative("[", PrintItems(items[..i], true), Separated(i == 0, Print(items[i])));
  }

  lemma ArrayCloses(before: seq<Utf8.Byte>, items: seq<Value>)
    ensures Appended(Appended(before, ArrayFront(items, |items|)), "]") == Appended(before, Print(Array(items)))
  {
    assert items[..|items|] == items;
    AppendedTwice(before, ArrayFront(items, |items|), "]");
    Associative("[", PrintItems(items, true), "]");
  }

  ghost function ObjectFront(v: Value, keys: seq<string>, i: nat): string
    requires v.Object? && i <= |keys| && forall k :: k in keys ==> k in v.members
  {
    "{" + PrintMembers(v, keys[..i], true)
  }

  lemma ObjectStart(v: Value, keys: seq<string>)
    requires v.Object? && forall k :: k in keys ==> k in v.members
    ensures ObjectFront(v, keys, 0) == "{"
  {
  }

  lemma ObjectGrows(before: seq<Utf8.Byte>, v: Value, keys: seq<string>, i: nat)
    requires v.Object? && i < |keys| && forall k :: k in keys ==> k in v.members
    ensures Appended(Appended(AfterSeparator(Appended(before, ObjectFront(v, keys, i)),
                                             i == 0, PrintString(keys[i])), ":"),
                     Print(v.members[keys[i]])) ==
            Appended(before, ObjectFront(v, keys, i + 1))
  {
    hide Appended;
    var k, value, front := keys[i], Print(v.members[keys[i]]), ObjectFront(v, keys, i);
    var name := Separated(i == 0, PrintString(k));
    AppendedSeparated(before, front, i == 0, PrintString(k));
    AppendedTwice(before, front + name, ":");
    AppendedTwice(before, (front + name) + ":", value);
    assert (front + name) + ":" + value == front + Separated(i == 0, MemberText(k, value)) by {
      hide *;
      Associative(front, name, ":");
      Associative(front, name + ":", value);
      MemberRejoins(i == 0, k, value);
    }
    assert keys[..i + 1] == keys[..i] + [k];
    MembersSnoc(v, keys[..i], k, true);
    Associative("{", PrintMembers(v, keys[..i], true), Separated(i == 0, MemberText(k, value)));
  }

  lemma MemberRejoins(first: bool, k: string, value: string)
    ensures Separated(first, PrintString(k)) + ":" + value == Separated(first, MemberText(k, value))
  {
    hide PrintString;
    SeparatedAppend(first, PrintString(k), ":");
    SeparatedAppend(first, PrintString(k) + ":", value);
    Associative(PrintString(k), ":", value);
  }

  lemma ObjectCloses(before: seq<Utf8.Byte>, v: Value, keys: seq<string>)
    requires v.Object? && keys == KeyOrder.SortedKeys(v.members.Keys) && forall k :: k in keys ==> k in v.members
    ensures Appended(Appended(before, ObjectFront(v, keys, |keys|)), "}") == Appended(before, Print(v))
  {
    assert keys[..|keys|] == keys;
    AppendedTwice(before, ObjectFront(v, keys, |keys|), "}");
    Associative("{", PrintMembers(v, keys, true), "}");
  }

  // ---- The whole operation ----

  datatype Error = InvalidUtf8 | UnpairedSurrogate(offset: nat) | Malformed

  /** `utf8.Valid`, the decoder and the number format are parameters. A document that is refused is
      never printed; any other gives the canonical bytes of what it decodes to, without signatures. */
  method CanonicalizeJSON(raw: seq<Utf8.Byte>, validUtf8: seq<Utf8.Byte> -> bool,
                          decode: seq<Utf8.Byte> -> Option<Value>, format: NumberFormat)
    returns (r: Result<seq<Utf8.Byte>, Error>)
    ensures r.Ok? <==> validUtf8(raw) && decode(raw).Some? &&
                       forall k: nat :: !SurrogateScanner.Unpaired(SurrogateScanner.Tokens(raw), k)
    ensures r.Ok? ==> r.value == CanonicalBytes(decode(raw).value, format)
    ensures r.Err? && r.error.UnpairedSurrogate? ==>
              exists k: nat :: SurrogateScanner.Unpaired(SurrogateScanner.Tokens(raw), k) &&
                               r.error.offset == SurrogateScanner.Offset(SurrogateScanner.Tokens(raw), k) &&
                               SurrogateScanner.PairedBefore(SurrogateScanner.Tokens(raw), k)
    ensures r == Err(InvalidUtf8) <==> !validUtf8(raw)
    ensures r == Err(Malformed) ==>
              && decode(raw).None?
              && forall k: nat :: !SurrogateScanner.Unpaired(SurrogateScanner.Tokens(raw), k)
  {
    if !validUtf8(raw) {
      return Err(InvalidUtf8);
    }
    var bad := SurrogateScanner.ValidateUnicode(raw);
    if bad.Some? {
      return Err(UnpairedSurrogate(bad.value));
    }
    var decoded := decode(raw);
    if decoded.None? {
      return Err(Malformed);
    }
    var obj := decoded.value;
    if obj.Object? {
      obj := Object(obj.members - {"signatures"});
    }
    var buf := new Buffer();
    WriteJCS(buf, obj, format);
    return Ok(buf.bytes);
  }
}
