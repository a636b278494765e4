/** Helpers shared by the whole model: optional values, strings of decimal
    digits, substring search (PHP's strpos), splitting on a separator (PHP's
    explode) and upserting a sequence of keyed records into a map. */
module Common {

  datatype Option<T> = None | Some(value: T) {
    function GetOr(default: T): T {
      match this
      case Some(v) => v
      case None => default
    }
  }

  datatype Result<T, E> = Success(value: T) | Failure(error: E)

  // ---------------------------------------------------------------------
  // Decimal digits
  // ---------------------------------------------------------------------

  predicate IsDigit(c: char) { '0' <= c <= '9' }

  predicate AllDigits(s: string) { forall i :: 0 <= i < |s| ==> IsDigit(s[i]) }

  function DigitValue(c: char): nat
    requires IsDigit(c)
  {
    c as int - '0' as int
  }

  function DigitChar(d: nat): (c: char)
    requires d < 10
    ensures IsDigit(c) && DigitValue(c) == d
  {
    ('0' as int + d) as char
  }

  /** The number a string of decimal digits denotes, most significant first. */
  function DigitsValue(s: string): nat
    requires AllDigits(s)
  {
    if s == [] then 0 else 10 * DigitsValue(s[..|s| - 1]) + DigitValue(s[|s| - 1])
  }

  function Pow10(k: nat): (p: nat)
    ensures p >= 1
  {
    if k == 0 then 1 else 10 * Pow10(k - 1)
  }

  /** Decimal rendering of a natural number, without leading zeros. */
  function NatToString(n: nat): (r: string)
    ensures |r| >= 1 && AllDigits(r) && DigitsValue(r) == n
    ensures |r| > 1 ==> r[0] != '0'
  {
    if n < 10 then [DigitChar(n)]
    else
      var r := NatToString(n / 10) + [DigitChar(n % 10)];
      assert r[..|r| - 1] == NatToString(n / 10);
      r
  }

  lemma {:induction false} NatToStringLength(n: nat, k: nat)
    requires 1 <= k && n < Pow10(k)
    ensures |NatToString(n)| <= k
  {
    if n >= 10 {
      assert Pow10(1) == 10;
      assert k >= 2;
      assert n / 10 < Pow10(k - 1);
      NatToStringLength(n / 10, k - 1);
    }
  }

  function Repeat(c: char, n: nat): (r: string)
    ensures |r| == n && forall i :: 0 <= i < n ==> r[i] == c
  {
    if n == 0 then [] else Repeat(c, n - 1) + [c]
  }

  /** PHP's str_pad(s, width, pad, STR_PAD_LEFT). */
  function PadLeft(s: string, width: nat, pad: char): (r: string)
    ensures |r| == if |s| >= width then |s| else width
    ensures r[|r| - |s|..] == s
    ensures forall i :: 0 <= i < |r| - |s| ==> r[i] == pad
  {
    if |s| >= width then s else Repeat(pad, width - |s|) + s
  }

  /** Leading zeros do not change the value of a digit string. */
  lemma {:induction false} DigitsValueLeadingZeros(z: string, s: string)
    requires forall i :: 0 <= i < |z| ==> z[i] == '0'
    requires AllDigits(s)
    ensures AllDigits(z + s) && DigitsValue(z + s) == DigitsValue(s)
  {
    if s == [] {
      assert z + s == z;
      ZerosValue(z);
    } else {
      var s' := s[..|s| - 1];
      assert (z + s)[..|z + s| - 1] == z + s';
      DigitsValueLeadingZeros(z, s');
    }
  }

  lemma Pow10Six()
    ensures Pow10(6) == 1000000
  {
  }

  /** A number from 1 to 999999, zero-padded to six digits, is a run of six
      digits denoting that number. */
  lemma {:induction false} SixDigits(n: nat)
    requires 1 <= n <= 999999
    ensures var p := PadLeft(NatToString(n), 6, '0'); |p| == 6 && AllDigits(p) && DigitsValue(p) == n
  {
    var digits := NatToString(n);
    Pow10Six();
    NatToStringLength(n, 6);
    var padded := PadLeft(digits, 6, '0');
    var zeros := padded[..6 - |digits|];
    assert padded == zeros + digits;
    DigitsValueLeadingZeros(zeros, digits);
  }

  /** A run of k digits denotes a number below 10^k. */
  lemma {:induction false} DigitsValueBound(s: string)
    requires AllDigits(s)
    ensures DigitsValue(s) < Pow10(|s|)
  {
    if s != [] {
      DigitsValueBound(s[..|s| - 1]);
    }
  }

  lemma {:induction false} ZerosValue(z: string)
    requires forall i :: 0 <= i < |z| ==> z[i] == '0'
    ensures AllDigits(z) && DigitsValue(z) == 0
  {
    if z != [] {
      ZerosValue(z[..|z| - 1]);
    }
  }

  // ---------------------------------------------------------------------
  // Substrings
  // ---------------------------------------------------------------------

  /** `t` occurs in `s` starting at position `i`. */
  predicate OccursAt(s: string, t: string, i: int) {
    0 <= i && i + |t| <= |s| && s[i..i + |t|] == t
  }

  /** Whether `t` occurs somewhere in `s` (PHP's `strpos(s, t) !== false`,
      SQL's `s LIKE '%t%'` under a case-sensitive comparison). */
  predicate Contains(s: string, t: string)
    decreases |s|
  {
    (|t| <= |s| && s[..|t|] == t) || (|s| > 0 && Contains(s[1..], t))
  }

  lemma {:induction false} ContainsIffOccurs(s: string, t: string)
    ensures Contains(s, t) <==> exists i :: OccursAt(s, t, i)
  {
    if Contains(s, t) {
      var i := ContainsWitness(s, t);
    }
    if i :| OccursAt(s, t, i) {
      OccursContains(s, t, i);
    }
  }

  lemma {:induction false} ContainsWitness(s: string, t: string) returns (i: nat)
    requires Contains(s, t)
    ensures OccursAt(s, t, i)
    decreases |s|
  {
    if |t| <= |s| && s[..|t|] == t {
      i := 0;
    } else {
      var j := ContainsWitness(s[1..], t);
      assert s[1..][j..j + |t|] == s[j + 1..j + 1 + |t|];
      i := j + 1;
    }
  }

  lemma {:induction false} OccursContains(s: string, t: string, i: int)
    requires OccursAt(s, t, i)
    ensures Contains(s, t)
    decreases i
  {
    if i > 0 {
      assert s[1..][i - 1..i - 1 + |t|] == s[i..i + |t|];
      OccursContains(s[1..], t, i - 1);
    }
  }

  // ---------------------------------------------------------------------
  // PHP's explode on a single-character separator, and its inverse
  // ---------------------------------------------------------------------

  /** The pieces of `s` between occurrences of `sep`; always at least one. */
  function Split(s: string, sep: char): (parts: seq<string>)
    ensures |parts| >= 1
    ensures forall k :: 0 <= k < |parts| ==> sep !in parts[k]
    decreases |s|
  {
    if s == [] then [""]
    else
      var rest := Split(s[1..], sep);
      if s[0] == sep then [""] + rest
      else [[s[0]] + rest[0]] + rest[1..]
  }

  /** PHP's implode: the pieces separated by `sep`. */
  function Join(parts: seq<string>, sep: char): string
    requires |parts| >= 1
  {
    if |parts| == 1 then parts[0] else parts[0] + [sep] + Join(parts[1..], sep)
  }

  /** Splitting and joining again gives back the original string. */
  lemma {:induction false} JoinSplit(s: string, sep: char)
    ensures Join(Split(s, sep), sep) == s
    decreases |s|
  {
    if s != [] {
      var rest := Split(s[1..], sep);
      JoinSplit(s[1..], sep);
      if s[0] == sep {
        assert Split(s, sep)[1..] == rest;
      } else {
        var parts := Split(s, sep);
        assert parts[0] == [s[0]] + rest[0];
        if |rest| == 1 {
          assert parts == [[s[0]] + rest[0]];
        } else {
          assert parts[1..] == rest[1..];
          assert Join(rest, sep) == rest[0] + [sep] + Join(rest[1..], sep);
        }
      }
    }
  }

  lemma {:induction false} SplitNoSeparator(p: string, sep: char)
    requires sep !in p
    ensures Split(p, sep) == [p]
    decreases |p|
  {
    if p != [] {
      assert sep !in p[1..] by {
        assert forall c :: c in p[1..] ==> c in p;
      }
      SplitNoSeparator(p[1..], sep);
      assert [p[0]] + p[1..] == p;
    }
  }

  lemma {:induction false} SplitAfterPiece(p: string, rest: string, sep: char)
    requires sep !in p
    ensures Split(p + [sep] + rest, sep) == [p] + Split(rest, sep)
    decreases |p|
  {
    var s := p + [sep] + rest;
    if p == [] {
      assert s[0] == sep && s[1..] == rest;
    } else {
      assert sep !in p[1..] by {
        assert forall c :: c in p[1..] ==> c in p;
      }
      assert s[0] == p[0] && s[1..] == p[1..] + [sep] + rest;
      SplitAfterPiece(p[1..], rest, sep);
      assert [p[0]] + p[1..] == p;
    }
  }

  /** Splitting a join of separator-free pieces gives back the pieces. */
  lemma {:induction false} SplitJoin(parts: seq<string>, sep: char)
    requires |parts| >= 1
    requires forall k :: 0 <= k < |parts| ==> sep !in parts[k]
    ensures Split(Join(parts, sep), sep) == parts
  {
    if |parts| == 1 {
      SplitNoSeparator(parts[0], sep);
    } else {
      SplitJoin(parts[1..], sep);
      SplitAfterPiece(parts[0], Join(parts[1..], sep), sep);
      assert [parts[0]] + parts[1..] == parts;
    }
  }

  /** The i-th piece, or the empty string where PHP's `list()` finds no piece. */
  function Piece(parts: seq<string>, i: nat): string {
    if i < |parts| then parts[i] else ""
  }

  // ---------------------------------------------------------------------
  // Upsert of keyed records, one after another
  // ---------------------------------------------------------------------

  /** Each pair in turn inserts its key, or overwrites the value already
      stored under it (SQL's INSERT ... ON DUPLICATE KEY UPDATE). */
  function PutAll<K, V>(m: map<K, V>, kvs: seq<(K, V)>): map<K, V> {
    if kvs == [] then m
    else PutAll(m, kvs[..|kvs| - 1])[kvs[|kvs| - 1].0 := kvs[|kvs| - 1].1]
  }

  /** The position of the last pair with key `k`, if any. */
  function LastIndexOfKey<K(==), V>(kvs: seq<(K, V)>, k: K): (r: Option<nat>)
    ensures r.Some? ==> r.value < |kvs| && kvs[r.value].0 == k
    ensures r.Some? ==> forall j :: r.value < j < |kvs| ==> kvs[j].0 != k
    ensures r.None? ==> forall j :: 0 <= j < |kvs| ==> kvs[j].0 != k
  {
    if kvs == [] then None
    else if kvs[|kvs| - 1].0 == k then Some(|kvs| - 1)
    else LastIndexOfKey(kvs[..|kvs| - 1], k)
  }

  /** After the upserts, a key carries the value of its last pair; a key no
      pair names is exactly as it was. */
  lemma {:induction false} PutAllAt<K, V>(m: map<K, V>, kvs: seq<(K, V)>, k: K)
    ensures LastIndexOfKey(kvs, k).Some? ==>
              k in PutAll(m, kvs) && PutAll(m, kvs)[k] == kvs[LastIndexOfKey(kvs, k).value].1
    ensures LastIndexOfKey(kvs, k).None? ==>
              (k in PutAll(m, kvs) <==> k in m) && (k in m ==> PutAll(m, kvs)[k] == m[k])
  {
    if kvs != [] && kvs[|kvs| - 1].0 != k {
      PutAllAt(m, kvs[..|kvs| - 1], k);
    }
  }

  /** The keys named by the pairs. */
  function KeysOf<K, V>(kvs: seq<(K, V)>): (ks: set<K>)
    ensures forall j :: 0 <= j < |kvs| ==> kvs[j].0 in ks
  {
    if kvs == [] then {} else KeysOf(kvs[..|kvs| - 1]) + {kvs[|kvs| - 1].0}
  }

  /** A key is among the pairs' keys exactly when some pair names it. */
  lemma {:induction false} KeysOfMembers<K, V>(kvs: seq<(K, V)>, k: K)
    ensures k in KeysOf(kvs) <==> exists j :: 0 <= j < |kvs| && kvs[j].0 == k
  {
    if kvs != [] {
      var init := kvs[..|kvs| - 1];
      KeysOfMembers(init, k);
      if k in KeysOf(init) {
        var j :| 0 <= j < |init| && init[j].0 == k;
        assert kvs[j].0 == k;
      }
      if exists j :: 0 <= j < |kvs| && kvs[j].0 == k {
        var j :| 0 <= j < |kvs| && kvs[j].0 == k;
        if j < |init| {
          assert init[j].0 == k;
        }
      }
    }
  }

  /** The keys after the upserts are the old keys and the keys of the pairs. */
  lemma {:induction false} PutAllKeys<K, V>(m: map<K, V>, kvs: seq<(K, V)>)
    ensures PutAll(m, kvs).Keys == m.Keys + KeysOf(kvs)
  {
    if kvs != [] {
      PutAllKeys(m, kvs[..|kvs| - 1]);
    }
  }

  /** Number of elements of `s` that satisfy `p`. */
  function CountWhere<T>(s: seq<T>, p: T -> bool): (n: nat)
    ensures n <= |s|
  {
    if s == [] then 0
    else CountWhere(s[..|s| - 1], p) + (if p(s[|s| - 1]) then 1 else 0)
  }

  /** The elements of `s` that satisfy `p`, in their order. */
  function Filter<T>(s: seq<T>, p: T -> bool): (r: seq<T>)
    ensures |r| <= |s|
    ensures forall x :: x in r ==> x in s && p(x)
    ensures forall x :: x in s && p(x) ==> x in r
  {
    if s == [] then []
    else
      var init := Filter(s[..|s| - 1], p);
      var last := s[|s| - 1];
      assert forall x :: x in s ==> x in s[..|s| - 1] || x == last;
      if p(last) then init + [last] else init
  }

  /** Counting is the length of the filtered sequence. */
  lemma {:induction false} CountWhereFilter<T>(s: seq<T>, p: T -> bool)
    ensures CountWhere(s, p) == |Filter(s, p)|
  {
    if s != [] {
      CountWhereFilter(s[..|s| - 1], p);
    }
  }

  /** The positions of `s` whose element satisfies `p`. */
  function Positions<T>(s: seq<T>, p: T -> bool): set<int> {
    set i | 0 <= i < |s| && p(s[i])
  }

  /** Counting is the number of positions whose element satisfies `p`. */
  lemma {:induction false} CountWherePositions<T>(s: seq<T>, p: T -> bool)
    ensures CountWhere(s, p) == |Positions(s, p)|
  {
    if s != [] {
      var init := s[..|s| - 1];
      CountWherePositions(init, p);
      assert Positions(s, p) == if p(s[|s| - 1]) then Positions(init, p) + {|s| - 1} else Positions(init, p);
    }
  }

  /** Sequences whose elements agree position by position on the tests
      have the same first satisfying position. */
  lemma {:induction false} FirstIndexAgrees<T>(s: seq<T>, t: seq<T>, p: T -> bool, q: T -> bool)
    requires |s| == |t| && forall j :: 0 <= j < |s| ==> p(s[j]) == q(t[j])
    ensures FirstIndex(s, p) == FirstIndex(t, q)
  {
    if s != [] && !p(s[0]) {
      assert forall j :: 0 <= j < |s| - 1 ==> s[1..][j] == s[j + 1] && t[1..][j] == t[j + 1];
      FirstIndexAgrees(s[1..], t[1..], p, q);
    }
  }

  /** Filtering keeps exactly the satisfying occurrences of every element. */
  lemma {:induction false} FilterMultiset<T>(s: seq<T>, p: T -> bool, x: T)
    ensures multiset(Filter(s, p))[x] == if p(x) then multiset(s)[x] else 0
  {
    if s != [] {
      FilterMultiset(s[..|s| - 1], p, x);
      assert s == s[..|s| - 1] + [s[|s| - 1]];
    }
  }

  // ---------------------------------------------------------------------
  // Linear search
  // ---------------------------------------------------------------------

  /** The first position of `s` satisfying `p` (a linear search from the front). */
  function FirstIndex<T>(s: seq<T>, p: T -> bool): (r: Option<nat>)
    ensures r.Some? ==> r.value < |s| && p(s[r.value])
    ensures r.Some? ==> forall j :: 0 <= j < r.value ==> !p(s[j])
    ensures r.None? ==> forall j :: 0 <= j < |s| ==> !p(s[j])
  {
    if s == [] then None
    else if p(s[0]) then Some(0)
    else
      match FirstIndex(s[1..], p)
      case None => None
      case Some(i) => Some(i + 1)
  }

  /** A position satisfying `p` with none before it is the first one. */
  lemma FirstIndexAt<T>(s: seq<T>, p: T -> bool, i: nat)
    requires i < |s| && p(s[i])
    requires forall j :: 0 <= j < i ==> !p(s[j])
    ensures FirstIndex(s, p) == Some(i)
  {
  }
}
