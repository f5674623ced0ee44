/** Strings as Go sees them: sequences of Unicode scalar values whose bytes are
    their UTF-8 encoding, compared byte by byte. */
module Text {

  datatype Option<+T> = None | Some(value: T)

  /** Lexicographic order on sequences of code units. */
  predicate LexLess(a: seq<nat>, b: seq<nat>) {
    if a == [] then b != []
    else if b == [] then false
    else a[0] < b[0] || (a[0] == b[0] && LexLess(a[1..], b[1..]))
  }

  lemma LexIrreflexive(a: seq<nat>)
    ensures !LexLess(a, a)
  {
  }

  lemma LexTransitive(a: seq<nat>, b: seq<nat>, c: seq<nat>)
    requires LexLess(a, b) && LexLess(b, c)
    ensures LexLess(a, c)
  {
  }

  lemma {:induction false} LexTotal(a: seq<nat>, b: seq<nat>)
    ensures a == b || LexLess(a, b) || LexLess(b, a)
  {
    if a != [] && b != [] && a[0] == b[0] {
      LexTotal(a[1..], b[1..]);
      assert a == [a[0]] + a[1..] && b == [b[0]] + b[1..];
    }
  }

  lemma {:induction false} LexStripPrefix(p: seq<nat>, a: seq<nat>, b: seq<nat>)
    ensures LexLess(p + a, p + b) <==> LexLess(a, b)
  {
    if p == [] {
      assert p + a == a && p + b == b;
    } else {
      assert (p + a)[1..] == p[1..] + a && (p + b)[1..] == p[1..] + b;
      LexStripPrefix(p[1..], a, b);
    }
  }

  /** A difference at position k inside both sequences decides the order, whatever follows. */
  lemma {:induction false} LexDecidedAt(a: seq<nat>, b: seq<nat>, k: nat)
    requires FirstBelow(a, b, k)
    ensures LexLess(a, b)
  {
    if k > 0 {
      assert a[0] == a[..k][0] == b[..k][0] == b[0];
      assert a[1..][..k - 1] == a[..k][1..] == b[..k][1..] == b[1..][..k - 1];
      LexDecidedAt(a[1..], b[1..], k - 1);
    }
  }

  /** UTF-8 as `utf8.EncodeRune` and `bytes.Buffer.WriteRune` produce it. */
  function EncodeCode(n: nat): (bytes: seq<nat>)
    ensures |bytes| >= 1
  {
    if n < 0x80 then [n]
    else if n < 0x800 then [0xC0 + n / 64, 0x80 + n % 64]
    else if n < 0x10000 then [0xE0 + n / 4096, 0x80 + n / 64 % 64, 0x80 + n % 64]
    else [0xF0 + n / 262144, 0x80 + n / 4096 % 64, 0x80 + n / 64 % 64, 0x80 + n % 64]
  }

  function EncodeRune(c: char): seq<nat> {
    EncodeCode(c as nat)
  }

  /** Only ASCII characters produce ASCII bytes. */
  lemma EncodeRuneAscii(c: char)
    ensures c as nat < 0x80 ==> EncodeRune(c) == [c as nat]
    ensures c as nat >= 0x80 ==> forall i :: 0 <= i < |EncodeRune(c)| ==> EncodeRune(c)[i] >= 0x80
  {
  }

  function Utf8(s: string): (bytes: seq<nat>)
    ensures |bytes| >= |s|
  {
    if s == "" then [] else EncodeRune(s[0]) + Utf8(s[1..])
  }

  function Codes(s: string): (codes: seq<nat>)
    ensures |codes| == |s|
    ensures forall i :: 0 <= i < |s| ==> codes[i] == s[i] as nat
  {
    seq(|s|, i requires 0 <= i < |s| => s[i] as nat)
  }

  /** Go's `<` on strings, and the order of `sort.Strings`. */
  predicate StringLess(a: string, b: string) {
    LexLess(Utf8(a), Utf8(b))
  }

  /** x and y first differ at position k, where x is smaller. */
  predicate FirstBelow(x: seq<nat>, y: seq<nat>, k: nat) {
    k < |x| && k < |y| && x[..k] == y[..k] && x[k] < y[k]
  }

  lemma EncodeOrder(m: nat, n: nat) returns (k: nat)
    requires m < n < 0x110000
    ensures FirstBelow(EncodeCode(m), EncodeCode(n), k)
  {
    if m < 0x80 || m < 0x800 <= n || m < 0x10000 <= n {
      LeadByteOrder(m, n);
      k := 0;
    } else if n < 0x800 {
      k := if m / 64 == n / 64 then 1 else 0;
    } else if n < 0x10000 {
      k := ThreeByteOrder(m, n);
    } else {
      k := FourByteOrder(m, n);
    }
  }

  lemma LeadByteOrder(m: nat, n: nat)
    requires m < n < 0x110000 && (m < 0x80 || m < 0x800 <= n || m < 0x10000 <= n)
    ensures FirstBelow(EncodeCode(m), EncodeCode(n), 0)
  {
  }

  lemma ThreeByteOrder(m: nat, n: nat) returns (k: nat)
    requires 0x800 <= m < n < 0x10000
    ensures FirstBelow(EncodeCode(m), EncodeCode(n), k)
  {
    assert m / 4096 == m / 64 / 64 && n / 4096 == n / 64 / 64;
    k := if m / 4096 != n / 4096 then 0 else if m / 64 != n / 64 then 1 else 2;
  }

  lemma FourByteOrder(m: nat, n: nat) returns (k: nat)
    requires 0x10000 <= m < n < 0x110000
    ensures FirstBelow(EncodeCode(m), EncodeCode(n), k)
  {
    assert m / 4096 == m / 64 / 64 && n / 4096 == n / 64 / 64;
    assert m / 262144 == m / 4096 / 64 && n / 262144 == n / 4096 / 64;
    k := if m / 262144 != n / 262144 then 0 else if m / 4096 != n / 4096 then 1 else if m / 64 != n / 64 then 2 else 3;
  }

  /** Byte order of the encodings is code point order of the strings. */
  lemma {:induction false} Utf8Order(a: string, b: string)
    ensures StringLess(a, b) <==> LexLess(Codes(a), Codes(b))
  {
    if a != "" && b != "" {
      assert Codes(a)[1..] == Codes(a[1..]) && Codes(b)[1..] == Codes(b[1..]);
      if a[0] == b[0] {
        LexStripPrefix(EncodeRune(a[0]), Utf8(a[1..]), Utf8(b[1..]));
        Utf8Order(a[1..], b[1..]);
      } else if a[0] < b[0] {
        RuneDecides(a, b);
      } else {
        RuneDecides(b, a);
        if StringLess(a, b) {
          LexTransitive(Utf8(a), Utf8(b), Utf8(a));
          LexIrreflexive(Utf8(a));
        }
      }
    }
  }

  lemma RuneDecides(a: string, b: string)
    requires a != "" && b != "" && a[0] < b[0]
    ensures StringLess(a, b)
  {
    var k := EncodeOrder(a[0] as nat, b[0] as nat);
    assert Utf8(a)[..k] == EncodeRune(a[0])[..k];
    assert Utf8(b)[..k] == EncodeRune(b[0])[..k];
    LexDecidedAt(Utf8(a), Utf8(b), k);
  }

  lemma {:induction false} CodesInjective(a: string, b: string)
    requires Codes(a) == Codes(b)
    ensures a == b
  {
    assert |a| == |b|;
    forall i | 0 <= i < |a| ensures a[i] == b[i] {
      assert Codes(a)[i] == Codes(b)[i];
    }
  }

  /** Distinct strings have distinct bytes, so comparing bytes loses nothing. */
  lemma Utf8Injective(a: string, b: string)
    ensures Utf8(a) == Utf8(b) <==> a == b
  {
    if Utf8(a) == Utf8(b) {
      LexIrreflexive(Utf8(a));
      Utf8Order(a, b);
      Utf8Order(b, a);
      LexTotal(Codes(a), Codes(b));
      CodesInjective(a, b);
    }
  }

  lemma StringLessTotal(a: string, b: string)
    ensures a == b || StringLess(a, b) || StringLess(b, a)
    ensures !(StringLess(a, b) && StringLess(b, a))
    ensures !StringLess(a, a)
  {
    Utf8Injective(a, b);
    LexTotal(Utf8(a), Utf8(b));
    LexIrreflexive(Utf8(a));
    if StringLess(a, b) && StringLess(b, a) {
      LexTransitive(Utf8(a), Utf8(b), Utf8(a));
    }
  }

  lemma StringLessTransitive(a: string, b: string, c: string)
    requires StringLess(a, b) && StringLess(b, c)
    ensures StringLess(a, c)
  {
    LexTransitive(Utf8(a), Utf8(b), Utf8(c));
  }
}

/** The sorted key lists that Go code builds from a map. */
module SortedKeys {
  import opened Text

  ghost predicate Increasing(keys: seq<string>) {
    forall i, j :: 0 <= i < j < |keys| ==> StringLess(keys[i], keys[j])
  }

  ghost predicate Enumerates(keys: seq<string>, names: set<string>) {
    Increasing(keys) && forall k :: k in keys <==> k in names
  }

  /** At most one increasing sequence has a given set of elements. */
  lemma {:induction false} EnumerationUnique(a: seq<string>, b: seq<string>, names: set<string>)
    requires Enumerates(a, names) && Enumerates(b, names)
    ensures a == b
  {
    assert a == [] <==> b == [] by {
      assert a != [] ==> a[0] in names;
      assert b != [] ==> b[0] in names;
    }
    if a != [] {
      assert a[0] in b && b[0] in a;
      StringLessTotal(a[0], b[0]);
      Tail(a, names);
      Tail(b, names);
      EnumerationUnique(a[1..], b[1..], names - {a[0]});
      assert a == [a[0]] + a[1..] && b == [b[0]] + b[1..];
    }
  }

  lemma Tail(a: seq<string>, names: set<string>)
    requires a != [] && Enumerates(a, names)
    ensures Enumerates(a[1..], names - {a[0]})
  {
    forall k | k in a[1..] ensures k in names && k != a[0] {
      var i :| 0 <= i < |a[1..]| && a[1..][i] == k;
      assert a[i + 1] == k;
      StringLessTotal(k, k);
    }
    forall k | k in names && k != a[0] ensures k in a[1..] {
      var i :| 0 <= i < |a| && a[i] == k;
      assert a[1..][i - 1] == k;
    }
  }

  lemma Spliced(keys: seq<string>, key: string, i: nat)
    requires Increasing(keys) && i <= |keys|
    requires forall j :: 0 <= j < i ==> StringLess(keys[j], key)
    requires forall j :: i <= j < |keys| ==> StringLess(key, keys[j])
    ensures Increasing(keys[..i] + [key] + keys[i..])
  {
    var r := keys[..i] + [key] + keys[i..];
    forall a, b | 0 <= a < b < |r| ensures StringLess(r[a], r[b]) {
      assert a < i ==> r[a] == keys[a];
      assert a > i ==> r[a] == keys[a - 1];
      assert b < i ==> r[b] == keys[b];
      assert b > i ==> r[b] == keys[b - 1];
    }
  }

  /** Puts `key` at its place in an increasing sequence that does not hold it. */
  method Insert(keys: seq<string>, key: string) returns (r: seq<string>)
    requires Increasing(keys) && key !in keys
    ensures Increasing(r)
    ensures forall k :: k in r <==> k in keys || k == key
  {
    var i := 0;
    while i < |keys| && StringLess(keys[i], key)
      invariant i <= |keys|
      invariant forall j :: 0 <= j < i ==> StringLess(keys[j], key)
    {
      i := i + 1;
    }
    forall j | i <= j < |keys| ensures StringLess(key, keys[j]) {
      StringLessTotal(keys[i], key);
      if j > i {
        StringLessTransitive(key, keys[i], keys[j]);
      }
    }
    Spliced(keys, key, i);
    r := keys[..i] + [key] + keys[i..];
    assert keys == keys[..i] + keys[i..];
  }

  lemma Exists(names: set<string>) returns (keys: seq<string>)
    ensures Enumerates(keys, names)
  {
    if names == {} {
      keys := [];
    } else {
      var key := Least(names);
      var tail := Exists(names - {key});
      keys := [key] + tail;
      forall i, j | 0 <= i < j < |keys| ensures StringLess(keys[i], keys[j]) {
        assert keys[j] == tail[j - 1];
        assert keys[j] in tail;
        if i > 0 { assert keys[i] == tail[i - 1]; }
      }
    }
  }

  lemma Least(names: set<string>) returns (key: string)
    requires names != {}
    ensures key in names && forall k :: k in names && k != key ==> StringLess(key, k)
    decreases |names|
  {
    key :| key in names;
    if names != {key} {
      var rest := names - {key};
      assert |rest| < |names|;
      var other := Least(rest);
      StringLessTotal(key, other);
      if StringLess(other, key) {
        key := other;
      } else {
        forall k | k in rest ensures StringLess(key, k) {
          if k != other {
            StringLessTransitive(key, other, k);
          }
        }
      }
    }
  }

  /** The key list of `names`; `EnumerationUnique` shows there is only one. */
  ghost function Sorted(names: set<string>): (keys: seq<string>)
    ensures Enumerates(keys, names)
  {
    assert exists keys :: Enumerates(keys, names) by { var keys := Exists(names); }
    var keys :| Enumerates(keys, names);
    keys
  }

  /** `for key := range m { keys = append(keys, key) }; sort.Strings(keys)`: the
      iteration order is arbitrary, the result is not. */
  method Collect(names: set<string>) returns (keys: seq<string>)
    ensures keys == Sorted(names)
  {
    keys := [];
    var rest := names;
    while rest != {}
      invariant rest <= names
      invariant Enumerates(keys, names - rest)
      decreases rest
    {
      var key :| key in rest;
      keys := Insert(keys, key);
      rest := rest - {key};
    }
    assert names - rest == names;
    EnumerationUnique(keys, Sorted(names), names);
  }
}
