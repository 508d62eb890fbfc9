/** The order of object keys in canonical JSON (a2acrypto/canonical.go, `sortedKeys` and
    `utf16Compare`; RFC 8785, section 3.2.3). A string is a sequence of Unicode scalar values. */
module KeyOrder {

  /** `utf16.Encode` of one character: a unit, or a surrogate pair. */
  function Units(c: char): seq<int> {
    var n := c as int;
    if n < 0x1_0000 then [n] else [0xD800 + (n - 0x1_0000) / 0x400, 0xDC00 + (n - 0x1_0000) % 0x400]
  }

  function Encode(s: string): seq<int> {
    if s == [] then [] else Units(s[0]) + Encode(s[1..])
  }

  /** A character of the basic plane is its own unit and never a surrogate; any other is the pair of a
      high and a low surrogate that stands for it. */
  lemma UnitsShape(c: char)
    ensures var n, u := c as int, Units(c);
            if n < 0x1_0000 then u == [n] && !(0xD800 <= n < 0xE000)
            else && |u| == 2 && 0xD800 <= u[0] < 0xDC00 && 0xDC00 <= u[1] < 0xE000
                 && n == 0x1_0000 + (u[0] - 0xD800) * 0x400 + (u[1] - 0xDC00)
  {
  }

  /** Every such pair stands for a character. */
  lemma PairIsCharacter(high: int, low: int) returns (c: char)
    requires 0xD800 <= high < 0xDC00 && 0xDC00 <= low < 0xE000
    ensures Units(c) == [high, low]
  {
    c := (0x1_0000 + (high - 0xD800) * 0x400 + (low - 0xDC00)) as char;
  }

  /** Lexicographic comparison: negative, zero or positive as -1, 0 or 1. */
  function Lexicographic(a: seq<int>, b: seq<int>): int {
    if a == [] then (if b == [] then 0 else -1)
    else if b == [] then 1
    else if a[0] < b[0] then -1
    else if a[0] > b[0] then 1
    else Lexicographic(a[1..], b[1..])
  }

  function Compare(a: string, b: string): int {
    Lexicographic(Encode(a), Encode(b))
  }

  lemma {:induction false} SkipCommon(p: seq<int>, a: seq<int>, b: seq<int>)
    ensures Lexicographic(p + a, p + b) == Lexicographic(a, b)
  {
    if p == [] {
      assert p + a == a && p + b == b;
    } else {
      assert (p + a)[1..] == p[1..] + a && (p + b)[1..] == p[1..] + b;
      SkipCommon(p[1..], a, b);
    }
  }

  /** The loop of the source, on the two unit sequences. */
  method Utf16Compare(a: string, b: string) returns (c: int)
    ensures c == Compare(a, b)
  {
    var ua, ub := Encode(a), Encode(b);
    var n := if |ua| < |ub| then |ua| else |ub|;
    for i := 0 to n
      invariant ua[..i] == ub[..i]
    {
      assert ua == ua[..i] + ua[i..] && ub == ub[..i] + ub[i..];
      SkipCommon(ua[..i], ua[i..], ub[i..]);
      if ua[i] < ub[i] {
        return -1;
      }
      if ua[i] > ub[i] {
        return 1;
      }
      assert ua[..i + 1] == ua[..i] + [ua[i]] && ub[..i + 1] == ub[..i] + [ub[i]];
    }
    assert ua == ua[..n] + ua[n..] && ub == ub[..n] + ub[n..];
    SkipCommon(ua[..n], ua[n..], ub[n..]);
    if |ua| < |ub| {
      return -1;
    }
    if |ua| > |ub| {
      return 1;
    }
    return 0;
  }

  // ---- A strict total order ----

  lemma {:induction false} LexicographicAntisymmetric(a: seq<int>, b: seq<int>)
    ensures Lexicographic(a, b) == -Lexicographic(b, a)
    ensures Lexicographic(a, b) == 0 <==> a == b
    ensures -1 <= Lexicographic(a, b) <= 1
  {
    if a != [] && b != [] {
      LexicographicAntisymmetric(a[1..], b[1..]);
      if a[0] == b[0] && a[1..] == b[1..] {
        assert a == [a[0]] + a[1..] && b == [b[0]] + b[1..];
      }
    }
  }

  lemma {:induction false} LexicographicTransitive(a: seq<int>, b: seq<int>, c: seq<int>)
    requires Lexicographic(a, b) <= 0 && Lexicographic(b, c) < 0
    ensures Lexicographic(a, c) < 0
  {
    if a != [] && b != [] && c != [] && a[0] == b[0] == c[0] {
      LexicographicTransitive(a[1..], b[1..], c[1..]);
    }
  }

  /** The first unit that differs decides, and a proper prefix comes first. */
  ghost predicate Before(a: seq<int>, b: seq<int>) {
    a < b || exists i: nat :: i < |a| && i < |b| && a[..i] == b[..i] && a[i] < b[i]
  }

  lemma BeforeStep(x: int, a: seq<int>, b: seq<int>)
    ensures Before([x] + a, [x] + b) <==> Before(a, b)
  {
    var s, t := [x] + a, [x] + b;
    assert s[1..] == a && t[1..] == b;
    if i: nat :| i < |a| && i < |b| && a[..i] == b[..i] && a[i] < b[i] {
      assert s[..i + 1] == [x] + a[..i] && t[..i + 1] == [x] + b[..i] && s[i + 1] < t[i + 1];
    }
    if i: nat :| i < |s| && i < |t| && s[..i] == t[..i] && s[i] < t[i] {
      assert a[..i - 1] == s[..i][1..] && b[..i - 1] == t[..i][1..] && a[i - 1] < b[i - 1];
    }
  }

  lemma BeforeHeads(a: seq<int>, b: seq<int>)
    requires a != [] && b != [] && a[0] != b[0]
    ensures Before(a, b) <==> a[0] < b[0]
  {
    assert a[..0] == b[..0];
    assert forall i: nat :: 0 < i <= |a| && i <= |b| ==> a[..i][0] == a[0] && b[..i][0] == b[0];
  }

  lemma {:induction false} LessIff(a: seq<int>, b: seq<int>)
    ensures Lexicographic(a, b) < 0 <==> Before(a, b)
  {
    if a != [] && b != [] {
      if a[0] == b[0] {
        hide Before;
        LessIff(a[1..], b[1..]);
        BeforeStep(a[0], a[1..], b[1..]);
        assert a == [a[0]] + a[1..] && b == [b[0]] + b[1..];
      } else {
        BeforeHeads(a, b);
      }
    }
  }

  lemma {:induction false} EncodeInjective(a: string, b: string)
    ensures Encode(a) == Encode(b) ==> a == b
  {
    if a != [] && b != [] && Encode(a) == Encode(b) {
      assert Encode(a)[0] == Units(a[0])[0] && Encode(b)[0] == Units(b[0])[0];
      assert |Units(a[0])| == |Units(b[0])|;
      assert Encode(a)[|Units(a[0])| - 1] == Units(a[0])[|Units(a[0])| - 1];
      assert Encode(b)[|Units(b[0])| - 1] == Units(b[0])[|Units(b[0])| - 1];
      assert a[0] == b[0];
      assert Encode(a)[|Units(a[0])|..] == Encode(a[1..]) && Encode(b)[|Units(b[0])|..] == Encode(b[1..]);
      EncodeInjective(a[1..], b[1..]);
      assert a == [a[0]] + a[1..] && b == [b[0]] + b[1..];
    }
  }

  /** `utf16Compare` is a strict total order on valid Unicode strings, 0 only on equal ones. */
  lemma {:induction false} TotalOrder(a: string, b: string, c: string)
    ensures Compare(a, b) == 0 <==> a == b
    ensures Compare(a, b) == -Compare(b, a) && -1 <= Compare(a, b) <= 1
    ensures Compare(a, b) < 0 && Compare(b, c) < 0 ==> Compare(a, c) < 0
  {
    LexicographicAntisymmetric(Encode(a), Encode(b));
    EncodeInjective(a, b);
    if Compare(a, b) < 0 && Compare(b, c) < 0 {
      LexicographicTransitive(Encode(a), Encode(b), Encode(c));
    }
  }

  // ---- Against code-point order ----

  function CodePoints(s: string): seq<int> {
    if s == [] then [] else [s[0] as int] + CodePoints(s[1..])
  }

  /** The order that a plain sort of the strings would use. */
  function CompareCodePoints(a: string, b: string): int {
    Lexicographic(CodePoints(a), CodePoints(b))
  }

  predicate FirstDifference(a: string, b: string, i: nat) {
    i < |a| && i < |b| && a[..i] == b[..i] && a[i] != b[i]
  }

  /** One character from U+E000..U+FFFF and one above U+FFFF. */
  predicate Straddle(x: char, y: char) {
    || (0xE000 <= x as int <= 0xFFFF && y as int > 0xFFFF)
    || (0xE000 <= y as int <= 0xFFFF && x as int > 0xFFFF)
  }

  lemma QuotientsOrder(x: nat, y: nat)
    requires x < y
    ensures x / 0x400 < y / 0x400 || (x / 0x400 == y / 0x400 && x % 0x400 < y % 0x400)
  {
    assert x == x / 0x400 * 0x400 + x % 0x400 && y == y / 0x400 * 0x400 + y % 0x400;
  }

  /** Among the characters above U+FFFF, and among the others, units order as code points do. */
  lemma UnitsOrder(x: char, y: char)
    requires (x as int) < y as int
    ensures Lexicographic(Units(x), Units(y)) == if Straddle(x, y) then 1 else -1
    ensures Units(x)[0] == Units(y)[0] ==> |Units(x)| == 2 == |Units(y)|
  {
    if x as int >= 0x1_0000 {
      QuotientsOrder(x as int - 0x1_0000, y as int - 0x1_0000);
    }
  }

  lemma {:induction false} PrefixDecides(a: seq<int>, b: seq<int>, s: seq<int>, t: seq<int>)
    requires a != [] && b != [] && a != b && (a[0] == b[0] ==> |a| == 2 == |b|)
    ensures Lexicographic(a + s, b + t) == Lexicographic(a, b)
  {
    assert (a + s)[0] == a[0] && (b + t)[0] == b[0];
    if a[0] == b[0] {
      assert a + s == [a[0]] + ([a[1]] + s) && b + t == [b[0]] + ([b[1]] + t);
      SkipCommon([a[0]], [a[1]] + s, [b[1]] + t);
    }
  }

  lemma {:induction false} FirstCharactersDecide(a: string, b: string)
    requires a != [] && b != [] && a[0] != b[0]
    ensures CompareCodePoints(a, b) == if (a[0] as int) < b[0] as int then -1 else 1
    ensures Compare(a, b) == if Straddle(a[0], b[0]) then -CompareCodePoints(a, b) else CompareCodePoints(a, b)
  {
    if (a[0] as int) < b[0] as int {
      UnitsOrder(a[0], b[0]);
    } else {
      UnitsOrder(b[0], a[0]);
      LexicographicAntisymmetric(Units(a[0]), Units(b[0]));
    }
    hide Units;
    PrefixDecides(Units(a[0]), Units(b[0]), Encode(a[1..]), Encode(b[1..]));
  }

  lemma ShiftDifference(a: string, b: string, i: nat)
    requires a != [] && b != [] && a[0] == b[0]
    ensures FirstDifference(a, b, i + 1) <==> FirstDifference(a[1..], b[1..], i)
  {
    if i + 1 < |a| && i + 1 < |b| {
      assert a[..i + 1] == [a[0]] + a[1..][..i] && b[..i + 1] == [b[0]] + b[1..][..i];
      assert a[1..][..i] == a[..i + 1][1..] && b[1..][..i] == b[..i + 1][1..];
    }
  }

  /** The two orders disagree exactly when the first differing characters straddle U+FFFF that way. */
  lemma {:induction false} DiffersFromCodePointOrder(a: string, b: string)
    ensures Compare(a, b) != CompareCodePoints(a, b) <==>
            exists i: nat :: FirstDifference(a, b, i) && Straddle(a[i], b[i])
  {
    if a != [] && b != [] {
      if a[0] == b[0] {
        SkipCommon(Units(a[0]), Encode(a[1..]), Encode(b[1..]));
        SkipCommon([a[0] as int], CodePoints(a[1..]), CodePoints(b[1..]));
        DiffersFromCodePointOrder(a[1..], b[1..]);
        forall i: nat ensures FirstDifference(a, b, i + 1) <==> FirstDifference(a[1..], b[1..], i) {
          ShiftDifference(a, b, i);
        }
        if i: nat :| FirstDifference(a[1..], b[1..], i) && Straddle(a[1..][i], b[1..][i]) {
          assert FirstDifference(a, b, i + 1) && Straddle(a[i + 1], b[i + 1]);
        }
        if i: nat :| FirstDifference(a, b, i) && Straddle(a[i], b[i]) {
          assert FirstDifference(a[1..], b[1..], i - 1) && Straddle(a[1..][i - 1], b[1..][i - 1]);
        }
      } else {
        FirstCharactersDecide(a, b);
        assert Straddle(a[0], b[0]) ==> FirstDifference(a, b, 0);
        assert forall i: nat :: FirstDifference(a, b, i) && i > 0 ==> a[..i][0] == b[..i][0];
      }
    }
  }

  // ---- Sorted keys ----

  predicate Sorted(keys: seq<string>) {
    forall i, j :: 0 <= i < j < |keys| ==> Compare(keys[i], keys[j]) < 0
  }

  function Elements(keys: seq<string>): set<string> {
    set k | k in keys
  }

  lemma NoElements(keys: seq<string>)
    ensures Elements(keys) == {} <==> keys == []
  {
    if keys != [] {
      assert keys[0] in Elements(keys);
    }
  }

  lemma ElementsSnoc(keys: seq<string>, k: string)
    ensures Elements(keys + [k]) == Elements(keys) + {k}
  {
    assert forall e :: e in keys + [k] <==> e in keys || e == k;
  }

  lemma FirstIsLeast(a: seq<string>, b: seq<string>)
    requires Sorted(a) && Sorted(b) && Elements(a) == Elements(b) && a != [] && b != []
    ensures a[0] == b[0]
  {
    assert a[0] in Elements(b) && b[0] in Elements(a);
    var i :| 0 <= i < |b| && b[i] == a[0];
    var j :| 0 <= j < |a| && a[j] == b[0];
    TotalOrder(a[0], b[0], a[0]);
  }

  lemma TailElements(keys: seq<string>)
    requires Sorted(keys) && keys != []
    ensures Sorted(keys[1..]) && Elements(keys[1..]) == Elements(keys) - {keys[0]}
  {
    forall i | 1 <= i < |keys| ensures keys[i] != keys[0] {
      TotalOrder(keys[0], keys[i], keys[0]);
    }
    assert forall k :: k in keys <==> k == keys[0] || k in keys[1..];
  }

  /** A set of keys has one sorted listing. */
  lemma {:induction false} SortedUnique(a: seq<string>, b: seq<string>)
    requires Sorted(a) && Sorted(b) && Elements(a) == Elements(b)
    ensures a == b
  {
    if a == [] || b == [] {
      NoElements(a);
      NoElements(b);
    } else {
      FirstIsLeast(a, b);
      TailElements(a);
      TailElements(b);
      SortedUnique(a[1..], b[1..]);
      assert a == [a[0]] + a[1..] && b == [b[0]] + b[1..];
    }
  }

  lemma {:induction false} LeastKey(keys: set<string>) returns (least: string)
    requires keys != {}
    ensures least in keys && forall k :: k in keys && k != least ==> Compare(least, k) < 0
    decreases keys
  {
    least :| least in keys;
    if keys != {least} {
      var other := LeastKey(keys - {least});
      TotalOrder(least, other, least);
      if Compare(other, least) < 0 {
        least := other;
      } else {
        forall k | k in keys && k != least ensures Compare(least, k) < 0 {
          TotalOrder(least, other, k);
        }
      }
    }
  }

  /** The keys, each once, sorted. */
  predicate ListingOf(sorted: seq<string>, keys: set<string>) {
    Sorted(sorted) && Elements(sorted) == keys
  }

  lemma {:induction false} ListingExists(keys: set<string>) returns (sorted: seq<string>)
    ensures ListingOf(sorted, keys)
    decreases keys
  {
    sorted := [];
    if keys != {} {
      var least := LeastKey(keys);
      var rest := ListingExists(keys - {least});
      sorted := [least] + rest;
      assert Elements(sorted) == {least} + Elements(rest) by {
        assert forall k :: k in sorted <==> k == least || k in rest;
      }
      assert forall i :: 0 <= i < |rest| ==> rest[i] in Elements(rest);
    }
  }

  /** The one sorted listing of a set of keys. */
  ghost function SortedKeys(keys: set<string>): (sorted: seq<string>)
    ensures Sorted(sorted) && Elements(sorted) == keys
  {
    assert exists listing :: ListingOf(listing, keys) by { var _ := ListingExists(keys); }
    var listing :| ListingOf(listing, keys);
    listing
  }

  /** `sort.Slice` may leave the collected keys in any order that `utf16Compare` finds sorted; with any
      iteration order of the map that is the one sorted listing. */
  method SortedKeysOf<V>(members: map<string, V>) returns (keys: seq<string>)
    ensures keys == SortedKeys(members.Keys)
  {
    keys := [];
    var left := members.Keys;
    while left != {}
      invariant left <= members.Keys && Elements(keys) == members.Keys - left
    {
      var k :| k in left;
      ElementsSnoc(keys, k);
      keys, left := keys + [k], left - {k};
    }
    var collected := Elements(keys);
    assert exists listing :: ListingOf(listing, collected) by { var _ := ListingExists(collected); }
    keys :| ListingOf(keys, collected);
    SortedUnique(keys, SortedKeys(members.Keys));
  }
}
