/** Small shared vocabulary: optional values, bytes, and facts about the remainder operator. */
module Common {

  datatype Option<+T> = None | Some(value: T)

  type Byte = b: int | 0 <= b < 256

  /** Where x first occurs in s. */
  function IndexOf<T(==)>(s: seq<T>, x: T): (i: nat)
    requires x in s
    ensures i < |s| && s[i] == x
  {
    if s[0] == x then 0 else 1 + IndexOf(s[1..], x)
  }

  function CountSome<T>(s: seq<Option<T>>): (n: nat)
    ensures n <= |s|
  {
    if s == [] then 0 else (if s[0].Some? then 1 else 0) + CountSome(s[1..])
  }

  ghost predicate NoRepeats<T>(s: seq<T>) {
    forall i, j :: 0 <= i < j < |s| ==> s[i] != s[j]
  }

  /** As many elements as the sequence is long. */
  function Elements<T(==, !new)>(f: seq<T>): (s: set<T>)
    requires NoRepeats(f)
    ensures |s| == |f| && forall x :: x in s <==> x in f
  {
    if f == [] then {}
    else
      var k := |f| - 1;
      assert f == f[..k] + [f[k]];
      Elements(f[..k]) + {f[k]}
  }

  lemma Subset<T>(a: set<T>, b: set<T>)
    requires a <= b
    ensures |a| <= |b| && (a != b ==> |a| < |b|)
  {
    assert b == a + (b - a);
  }

  /** A C string's bytes, without the NUL that ends it. */
  type Text = s: seq<Byte> | 0 !in s

  /** A char buffer read as a C string. */
  function UpToNul(bytes: seq<Byte>): (text: seq<Byte>)
    ensures 0 !in text && text <= bytes
    ensures 0 !in bytes ==> text == bytes
  {
    if bytes == [] || bytes[0] == 0 then [] else [bytes[0]] + UpToNul(bytes[1..])
  }

  const TAB: Byte := 9
  const LF: Byte := 10
  const CR: Byte := 13
  const SPACE: Byte := 32
  const QUOTE: Byte := 34
  const APOSTROPHE: Byte := 39
  const BACKSLASH: Byte := 92

  /** A multiple of `c` strictly between `-c` and `c` is zero. */
  lemma SmallMultiple(c: int, k: int)
    requires -c < c * k < c
    ensures k == 0
  {
    assert k >= 1 ==> c * k >= c;
    assert k <= -1 ==> c * k <= -c;
  }

  /** Two numbers less than `c` apart leave the same remainder only when they are equal. */
  lemma RemainderDistinguishes(a: int, b: int, c: int)
    requires 0 < c && -c < a - b < c
    ensures a % c == b % c <==> a == b
  {
    if a % c == b % c {
      var k := a / c - b / c;
      assert a - b == c * k;
      SmallMultiple(c, k);
    }
  }

  lemma RemainderOf(q: int, r: int, c: int)
    requires 0 <= r < c
    ensures (c * q + r) % c == r
  {
    var x := c * q + r;
    var k := q - x / c;
    assert c * k == x % c - r;
    SmallMultiple(c, k);
  }

  lemma RemainderOfSuccessor(x: nat, c: nat)
    requires 0 < c
    ensures (x % c + 1) % c == (x + 1) % c
  {
    var q, r := x / c, x % c;
    assert x == c * q + r;
    if r + 1 < c {
      RemainderOf(q, r + 1, c);
      RemainderOf(0, r + 1, c);
    } else {
      assert c * (q + 1) == c * q + c;
      RemainderOf(q + 1, 0, c);
      RemainderOf(1, 0, c);
    }
  }

  /** Stepping by less than the distance to the next multiple does not wrap. */
  lemma RemainderStep(b: nat, i: nat, c: nat)
    requires 0 < c && b % c + i < c
    ensures (b + i) % c == b % c + i
  {
    assert b + i == c * (b / c) + (b % c + i);
    RemainderOf(b / c, b % c + i, c);
  }

  /** The remainder test of a ring holding between 0 and c - 1 elements: "one more would fill it". */
  lemma FullTest(f: nat, b: nat, c: nat)
    requires 0 < c && b <= f <= b + c - 1
    ensures (f + 1) % c == b % c <==> f + 1 == b + c
  {
    assert b + c == c * (b / c + 1) + b % c by {
      assert c * (b / c + 1) == c * (b / c) + c;
    }
    RemainderOf(b / c + 1, b % c, c);
    RemainderDistinguishes(f + 1, b + c, c);
  }
}
