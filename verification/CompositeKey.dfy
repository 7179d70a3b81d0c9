/** Composite keys: an object type and attributes, each closed by U+0000, and the ranges of partial keys. */
module CompositeKey {
  import opened Digits
  import opened PvtTypes

  const MAX_RUNE: nat := 0x10FFFF

  type Rune = n: nat | n <= MAX_RUNE

  type Str = seq<Rune>

  const MIN: Str := [0]
  const MAX: Str := [MAX_RUNE]

  function Joined(parts: seq<Str>): Str {
    if parts == [] then [] else Joined(parts[..|parts| - 1]) + parts[|parts| - 1] + MIN
  }

  function Key(objectType: Str, attributes: seq<Str>): Str {
    MIN + Joined([objectType] + attributes)
  }

  lemma JoinedSnoc(parts: seq<Str>, p: Str)
    ensures Joined(parts + [p]) == Joined(parts) + p + MIN
  {
    assert (parts + [p])[..|parts|] == parts;
  }

  method Create(objectType: Str, attributes: seq<Str>) returns (key: Str)
    ensures key == Key(objectType, attributes)
  {
    key := MIN + objectType + MIN;
    JoinedSnoc([], objectType);
    assert [] + [objectType] == [objectType];
    assert [objectType] + attributes[..0] == [objectType];
    for i := 0 to |attributes|
      invariant key == MIN + Joined([objectType] + attributes[..i])
    {
      key := key + attributes[i] + MIN;
      assert [objectType] + attributes[..i + 1] == [objectType] + attributes[..i] + [attributes[i]];
      JoinedSnoc([objectType] + attributes[..i], attributes[i]);
    }
    assert attributes[..|attributes|] == attributes;
  }

  // ----- Splitting

  // The nil-free pieces that join to the text, and a last one that nothing closes
  ghost predicate IsSplit(text: Str, pieces: seq<Str>, rest: Str) {
    text == Joined(pieces) + rest && NilFree(pieces) && 0 !in rest
  }

  predicate NilFree(parts: seq<Str>) {
    forall i :: 0 <= i < |parts| ==> 0 !in parts[i]
  }

  // The part before the first nil and the part after it are determined
  lemma FirstPiece(a: Str, b: Str, x: Str, y: Str)
    requires a + MIN + x == b + MIN + y && 0 !in a && 0 !in b
    ensures a == b && x == y
  {
    var t := a + MIN + x;
    assert t[|a|] == 0 && t[|b|] == 0;
    assert forall i :: 0 <= i < |a| ==> t[i] == a[i];
    assert forall i :: 0 <= i < |b| ==> t[i] == b[i];
    assert |a| == |b|;
    assert a == t[..|a|] && b == t[..|b|];
    assert x == t[|a| + 1..] && y == t[|b| + 1..];
  }

  lemma Reassociate<T>(a: seq<T>, b: seq<T>, c: seq<T>, d: seq<T>, e: seq<T>)
    ensures a + b + c + d + e == a + b + (c + d + e)
  {
  }

  lemma {:induction false} JoinedFront(parts: seq<Str>)
    requires parts != []
    ensures Joined(parts) == parts[0] + MIN + Joined(parts[1..])
  {
    var last := |parts| - 1;
    if last == 0 {
      assert parts == [] + [parts[0]];
      JoinedSnoc([], parts[0]);
    } else {
      JoinedFront(parts[..last]);
      assert parts[..last][1..] == parts[1..][..last - 1];
      var mid := parts[1..][..last - 1];
      assert parts[1..] == mid + [parts[last]];
      JoinedSnoc(mid, parts[last]);
      Reassociate(parts[0], MIN, Joined(mid), parts[last], MIN);
    }
  }

  lemma {:induction false} JoinedConcat(a: seq<Str>, b: seq<Str>)
    ensures Joined(a + b) == Joined(a) + Joined(b)
  {
    if b == [] {
      assert a + b == a;
    } else {
      var last := |b| - 1;
      assert (a + b)[..|a + b| - 1] == a + b[..last];
      JoinedConcat(a, b[..last]);
    }
  }

  lemma {:induction false} PrefixOfJoined(a: seq<Str>, b: seq<Str>)
    requires NilFree(a) && NilFree(b) && Joined(a) <= Joined(b)
    ensures a <= b
  {
    if a != [] {
      JoinedFront(a);
      var rest := Joined(b)[|Joined(a)|..];
      HasNil(b, []);
      assert Joined(b) + [] == Joined(b);
      JoinedFront(b);
      assert a[0] + MIN + (Joined(a[1..]) + rest) == Joined(b);
      FirstPiece(a[0], b[0], Joined(a[1..]) + rest, Joined(b[1..]));
      PrefixOfJoined(a[1..], b[1..]);
      assert a == [a[0]] + a[1..] && b == [b[0]] + b[1..];
    }
  }

  /** One joined text that continues another holds the other's parts first, and conversely. */
  lemma JoinedPrefixIff(a: seq<Str>, b: seq<Str>)
    requires NilFree(a) && NilFree(b)
    ensures Joined(a) <= Joined(b) <==> a <= b
  {
    if a <= b {
      JoinedConcat(a, b[|a|..]);
      assert b == a + b[|a|..];
    }
    if Joined(a) <= Joined(b) {
      PrefixOfJoined(a, b);
    }
  }

  lemma HasNil(parts: seq<Str>, rest: Str)
    ensures parts != [] ==> 0 in Joined(parts) + rest
    ensures parts == [] ==> Joined(parts) + rest == rest
  {
    if parts != [] {
      var text := Joined(parts) + rest;
      assert text[|Joined(parts)| - 1] == 0;
    }
  }

  lemma {:induction false} SplitUnique(text: Str, a: seq<Str>, x: Str, b: seq<Str>, y: Str)
    requires IsSplit(text, a, x) && IsSplit(text, b, y)
    ensures a == b
    decreases |a|
  {
    HasNil(a, x);
    HasNil(b, y);
    if a != [] && b != [] {
      JoinedFront(a);
      JoinedFront(b);
      assert text == a[0] + MIN + (Joined(a[1..]) + x) == b[0] + MIN + (Joined(b[1..]) + y);
      FirstPiece(a[0], b[0], Joined(a[1..]) + x, Joined(b[1..]) + y);
      SplitUnique(Joined(a[1..]) + x, a[1..], x, b[1..], y);
      assert a == [a[0]] + a[1..] && b == [b[0]] + b[1..];
    }
  }

  // None when there is no closed piece, where indexing the pieces panics
  method Split(key: Str) returns (r: Option<(Str, seq<Str>)>, ghost rest: Str)
    ensures key != [] ==> r.Some? ==> IsSplit(key[1..], [r.value.0] + r.value.1, rest)
    ensures key != [] ==> r.None? ==> IsSplit(key[1..], [], rest)
    ensures key == [] ==> r.None?
  {
    var components: seq<Str> := [];
    var at, i := 1, 1;
    while i < |key|
      invariant 1 <= at <= i && (key == [] || i <= |key|)
      invariant key == [] ==> components == []
      invariant key != [] ==> key[1..i] == Joined(components) + key[at..i]
      invariant NilFree(components) && (key != [] ==> 0 !in key[at..i])
    {
      assert key[1..i + 1] == key[1..i] + [key[i]];
      assert key[at..i + 1] == key[at..i] + [key[i]];
      if key[i] == 0 {
        JoinedSnoc(components, key[at..i]);
        components := components + [key[at..i]];
        at := i + 1;
      }
      i := i + 1;
    }
    rest := if key == [] then [] else key[at..];
    assert key != [] ==> key[1..i] == key[1..] && key[at..i] == key[at..];
    if |components| == 0 {
      return None, rest;
    }
    assert components == [components[0]] + components[1..];
    return Some((components[0], components[1..])), rest;
  }

  /** Splitting a created key gives its parts back exactly when none of them contains U+0000. */
  lemma RoundTripIff(objectType: Str, attributes: seq<Str>, pieces: seq<Str>, rest: Str)
    requires IsSplit(Key(objectType, attributes)[1..], pieces, rest)
    ensures pieces == [objectType] + attributes <==> NilFree([objectType] + attributes)
  {
    var parts := [objectType] + attributes;
    assert Key(objectType, attributes)[1..] == Joined(parts);
    if NilFree(parts) {
      assert Joined(parts) + [] == Joined(parts);
      SplitUnique(Joined(parts), parts, [], pieces, rest);
    }
  }

  // ----- Ranges

  // In the range from p to p with the highest rune appended
  predicate InPartialRange(p: Str, key: Str) {
    Leq(p, key) && Less(key, p + MAX)
  }

  lemma {:induction false} PartialRangeIff(p: Str, key: Str)
    ensures InPartialRange(p, key) <==> p <= key && (|p| < |key| ==> key[|p|] != MAX_RUNE)
  {
    if p == [] {
      assert p + MAX == MAX;
      assert key != [] ==> (Less(key, MAX) <==> key[0] < MAX_RUNE);
    } else if key != [] {
      assert (p + MAX)[0] == p[0] && (p + MAX)[1..] == p[1..] + MAX;
      PartialRangeIff(p[1..], key[1..]);
      assert p == [p[0]] + p[1..] && key == [key[0]] + key[1..];
      if p[0] == key[0] {
        assert |p| < |key| ==> key[|p|] == key[1..][|p| - 1];
      }
    }
  }

  predicate Component(s: Str) {
    0 !in s && MAX_RUNE !in s
  }

  predicate Components(parts: seq<Str>) {
    forall i :: 0 <= i < |parts| ==> Component(parts[i])
  }

  lemma {:induction false} NoMaxInJoined(parts: seq<Str>)
    requires Components(parts)
    ensures MAX_RUNE !in Joined(parts)
  {
    if parts != [] {
      NoMaxInJoined(parts[..|parts| - 1]);
    }
  }

  /** The range of a partial key holds exactly the keys of its object type whose attributes extend the given ones. */
  lemma RangeExact(objectType: Str, attributes: seq<Str>, objectType': Str, attributes': seq<Str>)
    requires Components([objectType] + attributes) && Components([objectType'] + attributes')
    ensures InPartialRange(Key(objectType, attributes), Key(objectType', attributes')) <==>
            objectType == objectType' && attributes <= attributes'
  {
    var a, b := [objectType] + attributes, [objectType'] + attributes';
    var p, key := Key(objectType, attributes), Key(objectType', attributes');
    PartialRangeIff(p, key);
    NoMaxInJoined(b);
    assert p <= key <==> Joined(a) <= Joined(b) by {
      assert p[1..] == Joined(a) && key[1..] == Joined(b);
    }
    JoinedPrefixIff(a, b);
    assert a <= b <==> objectType == objectType' && attributes <= attributes' by {
      assert a[0] == objectType && b[0] == objectType' && a[1..] == attributes && b[1..] == attributes';
    }
  }

  // ----- UTF-8

  // The lead byte and its continuation bytes
  function Utf8Rune(r: Rune): Bytes {
    if r < 0x80 then [r]
    else if r < 0x800 then [0xC0 + r / 0x40] + Tail(r, 1)
    else if r < 0x10000 then [0xE0 + r / 0x1000] + Tail(r, 2)
    else [0xF0 + r / 0x40000] + Tail(r, 3)
  }

  // The last k groups of six bits
  function Tail(n: nat, k: nat): (r: Bytes)
    ensures |r| == k
  {
    if k == 0 then [] else Tail(n / 0x40, k - 1) + [0x80 + n % 0x40]
  }

  function High(n: nat, k: nat): nat {
    if k == 0 then n else High(n / 0x40, k - 1)
  }

  function Utf8(s: Str): Bytes {
    if s == [] then [] else Utf8Rune(s[0]) + Utf8(s[1..])
  }

  // The strings differ at a place they both have, and first at one where a is lower
  predicate FirstLower(a: Bytes, b: Bytes) {
    a != [] && b != [] && (a[0] < b[0] || (a[0] == b[0] && FirstLower(a[1..], b[1..])))
  }

  lemma {:induction false} FirstLowerLess(a: Bytes, b: Bytes, x: Bytes, y: Bytes)
    requires FirstLower(a, b)
    ensures Less(a + x, b + y)
  {
    if a[0] == b[0] {
      FirstLowerLess(a[1..], b[1..], x, y);
      assert (a + x)[1..] == a[1..] + x && (b + y)[1..] == b[1..] + y;
    }
  }

  // A continuation byte
  predicate Continues(b: int) {
    0x80 <= b < 0xC0
  }

  lemma TailIs(n: nat)
    ensures Tail(n, 1) == [0x80 + n % 0x40]
    ensures Tail(n, 2) == [0x80 + n / 0x40 % 0x40, 0x80 + n % 0x40]
    ensures Tail(n, 3) == [0x80 + n / 0x1000 % 0x40, 0x80 + n / 0x40 % 0x40, 0x80 + n % 0x40]
  {
    assert Tail(n / 0x40 / 0x40, 1) == [] + [0x80 + n / 0x40 / 0x40 % 0x40];
    assert Tail(n / 0x40, 1) == [] + [0x80 + n / 0x40 % 0x40];
    assert Tail(n / 0x40, 2) == Tail(n / 0x40 / 0x40, 1) + [0x80 + n / 0x40 % 0x40];
    assert n / 0x40 / 0x40 == n / 0x1000;
  }

  predicate TwoBytes(u: seq<int>, r: int) {
    |u| == 2 && 0xC2 <= u[0] < 0xE0 && Continues(u[1]) && r == (u[0] - 0xC0) * 0x40 + (u[1] - 0x80)
  }

  predicate ThreeBytes(u: seq<int>, r: int) {
    && |u| == 3 && 0xE0 <= u[0] < 0xF0 && Continues(u[1]) && Continues(u[2]) && r >= 0x800
    && r == (u[0] - 0xE0) * 0x1000 + (u[1] - 0x80) * 0x40 + (u[2] - 0x80)
  }

  predicate FourBytes(u: seq<int>, r: int) {
    && |u| == 4 && 0xF0 <= u[0] < 0xF5 && Continues(u[1]) && Continues(u[2]) && Continues(u[3]) && r >= 0x10000
    && r == (u[0] - 0xF0) * 0x40000 + (u[1] - 0x80) * 0x1000 + (u[2] - 0x80) * 0x40 + (u[3] - 0x80)
  }

  /** The bytes of a code point have the shapes that the Unicode standard gives UTF-8, and give the code point back. */
  lemma Utf8RuneExact(r: Rune)
    ensures var u := Utf8Rune(r); (u == [r] && r < 0x80) || TwoBytes(u, r) || ThreeBytes(u, r) || FourBytes(u, r)
  {
    TailIs(r);
    if 0x10000 <= r {
      FourBytesOf(r);
    }
  }

  lemma FourBytesOf(r: Rune)
    requires 0x10000 <= r
    ensures FourBytes(Utf8Rune(r), r)
  {
    TailIs(r);
    var a, b, c, d := r / 0x40000, r / 0x1000 % 0x40, r / 0x40 % 0x40, r % 0x40;
    assert r == (r / 0x40) * 0x40 + d;
    assert r / 0x40 == (r / 0x1000) * 0x40 + c;
    assert r / 0x1000 == a * 0x40 + b;
    assert Utf8Rune(r) == [0xF0 + a, 0x80 + b, 0x80 + c, 0x80 + d];
  }

  lemma SameFirst(c: Byte, a: Bytes, b: Bytes)
    requires FirstLower(a, b)
    ensures FirstLower([c] + a, [c] + b)
  {
    assert ([c] + a)[1..] == a && ([c] + b)[1..] == b;
  }

  lemma {:induction false} FirstLowerExtends(a: Bytes, b: Bytes, x: Bytes, y: Bytes)
    requires FirstLower(a, b)
    ensures FirstLower(a + x, b + y)
  {
    if a[0] == b[0] {
      FirstLowerExtends(a[1..], b[1..], x, y);
      assert (a + x)[1..] == a[1..] + x && (b + y)[1..] == b[1..] + y;
    }
  }

  lemma {:induction false} SamePrefix(p: Bytes, a: Bytes, b: Bytes)
    requires FirstLower(a, b)
    ensures FirstLower(p + a, p + b)
  {
    if p == [] {
      assert p + a == a && p + b == b;
    } else {
      SamePrefix(p[1..], a, b);
      SameFirst(p[0], p[1..] + a, p[1..] + b);
      assert p + a == [p[0]] + (p[1..] + a) && p + b == [p[0]] + (p[1..] + b);
    }
  }

  lemma {:induction false} TailOrder(a: nat, b: nat, k: nat)
    requires a < b && High(a, k) == High(b, k)
    ensures FirstLower(Tail(a, k), Tail(b, k))
  {
    if k > 0 {
      if a / 0x40 == b / 0x40 {
        SamePrefix(Tail(a / 0x40, k - 1), [0x80 + a % 0x40], [0x80 + b % 0x40]);
      } else {
        TailOrder(a / 0x40, b / 0x40, k - 1);
        FirstLowerExtends(Tail(a / 0x40, k - 1), Tail(b / 0x40, k - 1), [0x80 + a % 0x40], [0x80 + b % 0x40]);
      }
    }
  }

  lemma HighIs(n: nat)
    ensures High(n, 1) == n / 0x40 && High(n, 2) == n / 0x1000 && High(n, 3) == n / 0x40000
  {
    assert High(n, 1) == High(n / 0x40, 0);
    assert High(n, 2) == High(n / 0x40, 1) == n / 0x40 / 0x40;
    assert High(n, 3) == High(n / 0x40, 2) == High(n / 0x40 / 0x40, 1);
  }

  // Encodings of one length: the lead bytes decide, or the tails do
  lemma LeadOrder(lead: nat, a: nat, b: nat, k: nat)
    requires a < b && High(a, k) <= High(b, k) && lead + High(b, k) < 256
    ensures FirstLower([lead + High(a, k)] + Tail(a, k), [lead + High(b, k)] + Tail(b, k))
  {
    if High(a, k) == High(b, k) {
      TailOrder(a, b, k);
      SameFirst(lead + High(a, k), Tail(a, k), Tail(b, k));
    }
  }

  lemma RuneOrder(a: Rune, b: Rune)
    requires a < b
    ensures FirstLower(Utf8Rune(a), Utf8Rune(b))
  {
    HighIs(a);
    HighIs(b);
    if 0x80 <= a && b < 0x800 {
      LeadOrder(0xC0, a, b, 1);
    } else if 0x800 <= a && b < 0x10000 {
      LeadOrder(0xE0, a, b, 2);
    } else if 0x10000 <= a {
      LeadOrder(0xF0, a, b, 3);
    }
  }

  /** UTF-8 keeps order: databases that compare bytes compare code points. */
  lemma {:induction false} Utf8Order(a: Str, b: Str)
    ensures Less(Utf8(a), Utf8(b)) <==> Less(a, b)
  {
    if a == [] || b == [] {
    } else if a[0] == b[0] {
      Utf8Order(a[1..], b[1..]);
      LessCommonPrefix(Utf8Rune(a[0]), Utf8(a[1..]), Utf8(b[1..]));
    } else if a[0] < b[0] {
      RuneOrder(a[0], b[0]);
      FirstLowerLess(Utf8Rune(a[0]), Utf8Rune(b[0]), Utf8(a[1..]), Utf8(b[1..]));
    } else {
      RuneOrder(b[0], a[0]);
      FirstLowerLess(Utf8Rune(b[0]), Utf8Rune(a[0]), Utf8(b[1..]), Utf8(a[1..]));
      NotBoth(Utf8(a), Utf8(b));
    }
  }

  lemma Utf8Injective(a: Str, b: Str)
    requires Utf8(a) == Utf8(b)
    ensures a == b
  {
    Utf8Order(a, b);
    Utf8Order(b, a);
    LessIrreflexive(Utf8(a));
    LessTotal(a, b);
  }

  /** The same range, over the bytes a database compares. */
  lemma ByteRangeExact(objectType: Str, attributes: seq<Str>, objectType': Str, attributes': seq<Str>)
    requires Components([objectType] + attributes) && Components([objectType'] + attributes')
    ensures var start, key := Key(objectType, attributes), Key(objectType', attributes');
            Leq(Utf8(start), Utf8(key)) && Less(Utf8(key), Utf8(start + MAX)) <==>
            objectType == objectType' && attributes <= attributes'
  {
    var start, key := Key(objectType, attributes), Key(objectType', attributes');
    RangeExact(objectType, attributes, objectType', attributes');
    Utf8Order(start, key);
    Utf8Order(key, start + MAX);
    if Utf8(start) == Utf8(key) {
      Utf8Injective(start, key);
    }
  }
}
