/** Shared vocabulary: optional request fields, JavaScript truthiness,
    rendering of integers in messages, and the ordered views of a table. */
module Common {

  /** An optional value; `None` stands for a JavaScript `undefined`. */
  datatype Option<T> = None | Some(value: T) {
    function GetOr(default: T): T {
      if Some? then value else default
    }
  }

  /** The outcome of a service call: a value, or the message of the thrown Error. */
  datatype Result<T> = Ok(value: T) | Err(message: string)

  /** An HTTP answer: a status with a JSON payload, a status with an error
      text, or a status with no body. */
  datatype Reply<T> = Success(status: int, data: T) | Failure(status: int, error: string) | Empty(status: int)

  /** JavaScript truthiness of an optional string: present and not "". */
  predicate Truthy(s: Option<string>) {
    s.Some? && s.value != ""
  }

  /** JavaScript truthiness of an optional number: present and not 0. */
  predicate TruthyInt(n: Option<int>) {
    n.Some? && n.value != 0
  }

  /** `s` starts with `prefix`. */
  predicate StartsWith(s: string, prefix: string) {
    |prefix| <= |s| && s[..|prefix|] == prefix
  }

  lemma PrefixConcat(prefix: string, rest: string)
    ensures StartsWith(prefix + rest, prefix)
  {
    assert (prefix + rest)[..|prefix|] == prefix;
  }

  function DigitChar(d: int): char
    requires 0 <= d < 10
  {
    "0123456789"[d]
  }

  /** Decimal rendering of a natural number, as JavaScript's `toString` prints it. */
  function NatToString(n: nat): string
    decreases n
  {
    if n < 10 then [DigitChar(n)] else NatToString(n / 10) + [DigitChar(n % 10)]
  }

  function IntToString(i: int): string {
    if i < 0 then "-" + NatToString(-i) else NatToString(i)
  }

  /** `Array.prototype.join` over integers. */
  function JoinInts(xs: seq<int>, sep: string): string
    decreases |xs|
  {
    if |xs| == 0 then ""
    else if |xs| == 1 then IntToString(xs[0])
    else IntToString(xs[0]) + sep + JoinInts(xs[1..], sep)
  }

  /** The rows of a table whose keys lie in [lo, hi), in ascending key order. */
  function RowsFrom<T>(m: map<int, T>, lo: int, hi: int): (r: seq<T>)
    decreases hi - lo
  {
    if lo >= hi then []
    else if lo in m then [m[lo]] + RowsFrom(m, lo + 1, hi)
    else RowsFrom(m, lo + 1, hi)
  }

  /** Every row with a key in [lo, hi), and nothing else, appears in RowsFrom. */
  lemma {:induction false} RowsFromMembership<T>(m: map<int, T>, lo: int, hi: int, x: T)
    ensures x in RowsFrom(m, lo, hi) <==> exists k :: lo <= k < hi && k in m && m[k] == x
    decreases hi - lo
  {
    if lo < hi {
      RowsFromMembership(m, lo + 1, hi, x);
      if lo in m && m[lo] == x {
        assert x in RowsFrom(m, lo, hi);
      }
      if x in RowsFrom(m, lo, hi) && !(lo in m && m[lo] == x) {
        assert x in RowsFrom(m, lo + 1, hi);
      }
    }
  }

  /** `Array.prototype.filter`. */
  function Filter<T(!new)>(s: seq<T>, p: T -> bool): (r: seq<T>)
    ensures |r| <= |s|
    ensures forall x :: x in r <==> x in s && p(x)
    decreases |s|
  {
    if |s| == 0 then []
    else if p(s[0]) then [s[0]] + Filter(s[1..], p)
    else Filter(s[1..], p)
  }

  /** Sequences with the same multiset have the same elements. */
  lemma SameMembers<T>(a: seq<T>, b: seq<T>)
    requires multiset(a) == multiset(b)
    ensures forall x :: x in a <==> x in b
  {
    forall x ensures x in a <==> x in b {
      assert x in a <==> x in multiset(a);
      assert x in b <==> x in multiset(b);
    }
  }

  /** Sorted by a numeric key, largest first (`orderBy: { key: 'desc' }`). */
  ghost predicate SortedDesc<T>(s: seq<T>, key: T -> int) {
    forall i, j :: 0 <= i < j < |s| ==> key(s[i]) >= key(s[j])
  }

  function InsertDesc<T>(x: T, s: seq<T>, key: T -> int): seq<T>
    decreases |s|
  {
    if |s| == 0 || key(x) >= key(s[0]) then [x] + s
    else [s[0]] + InsertDesc(x, s[1..], key)
  }

  /** Insertion sort on a numeric key, largest first. */
  function SortDesc<T>(s: seq<T>, key: T -> int): seq<T>
    decreases |s|
  {
    if |s| == 0 then [] else InsertDesc(s[0], SortDesc(s[1..], key), key)
  }

  lemma {:induction false} InsertDescPermutes<T>(x: T, s: seq<T>, key: T -> int)
    ensures multiset(InsertDesc(x, s, key)) == multiset(s) + multiset{x}
    decreases |s|
  {
    if |s| > 0 && key(x) < key(s[0]) {
      InsertDescPermutes(x, s[1..], key);
      assert s == [s[0]] + s[1..];
    }
  }

  lemma {:induction false} InsertDescSorted<T>(x: T, s: seq<T>, key: T -> int)
    requires SortedDesc(s, key)
    ensures SortedDesc(InsertDesc(x, s, key), key)
    decreases |s|
  {
    var r := InsertDesc(x, s, key);
    if |s| == 0 || key(x) >= key(s[0]) {
      forall i, j | 0 <= i < j < |r| ensures key(r[i]) >= key(r[j]) {
        if i == 0 && j > 1 {
          assert key(s[0]) >= key(s[j - 1]);
        }
      }
    } else {
      var t := InsertDesc(x, s[1..], key);
      InsertDescSorted(x, s[1..], key);
      InsertDescPermutes(x, s[1..], key);
      forall j | 0 <= j < |t| ensures key(s[0]) >= key(t[j]) {
        assert t[j] in multiset(t);
        if t[j] != x {
          assert t[j] in multiset(s[1..]);
          var k :| 0 <= k < |s[1..]| && s[1..][k] == t[j];
          assert key(s[0]) >= key(s[k + 1]);
        }
      }
      forall i, j | 0 <= i < j < |r| ensures key(r[i]) >= key(r[j]) {
        if i > 0 {
          assert r[i] == t[i - 1] && r[j] == t[j - 1];
        } else {
          assert r[j] == t[j - 1];
        }
      }
    }
  }

  /** The sort is a permutation of its input, in descending key order. */
  lemma {:induction false} SortDescCorrect<T>(s: seq<T>, key: T -> int)
    ensures multiset(SortDesc(s, key)) == multiset(s)
    ensures SortedDesc(SortDesc(s, key), key)
    decreases |s|
  {
    if |s| > 0 {
      SortDescCorrect(s[1..], key);
      InsertDescPermutes(s[0], SortDesc(s[1..], key), key);
      InsertDescSorted(s[0], SortDesc(s[1..], key), key);
      assert s == [s[0]] + s[1..];
    }
  }

  /** Lexicographic order on strings by character code (`orderBy: { name: 'asc' }`). */
  predicate LexLe(a: string, b: string)
    decreases |a|
  {
    if |a| == 0 then true
    else if |b| == 0 then false
    else if a[0] != b[0] then a[0] < b[0]
    else LexLe(a[1..], b[1..])
  }

  lemma {:induction false} LexLeTotal(a: string, b: string)
    ensures LexLe(a, b) || LexLe(b, a)
    decreases |a|
  {
    if |a| > 0 && |b| > 0 && a[0] == b[0] {
      LexLeTotal(a[1..], b[1..]);
    }
  }

  lemma {:induction false} LexLeTransitive(a: string, b: string, c: string)
    requires LexLe(a, b) && LexLe(b, c)
    ensures LexLe(a, c)
    decreases |a|
  {
    if |a| > 0 && |b| > 0 && |c| > 0 && a[0] == b[0] && b[0] == c[0] {
      LexLeTransitive(a[1..], b[1..], c[1..]);
    }
  }

  /** Sorted by a string key, smallest first in LexLe order. */
  ghost predicate SortedAscText<T>(s: seq<T>, key: T -> string) {
    forall i, j :: 0 <= i < j < |s| ==> LexLe(key(s[i]), key(s[j]))
  }

  function InsertAscText<T>(x: T, s: seq<T>, key: T -> string): seq<T>
    decreases |s|
  {
    if |s| == 0 || LexLe(key(x), key(s[0])) then [x] + s
    else [s[0]] + InsertAscText(x, s[1..], key)
  }

  /** Insertion sort on a string key, smallest first. */
  function SortAscText<T>(s: seq<T>, key: T -> string): seq<T>
    decreases |s|
  {
    if |s| == 0 then [] else InsertAscText(s[0], SortAscText(s[1..], key), key)
  }

  lemma {:induction false} InsertAscTextPermutes<T>(x: T, s: seq<T>, key: T -> string)
    ensures multiset(InsertAscText(x, s, key)) == multiset(s) + multiset{x}
    decreases |s|
  {
    if |s| > 0 && !LexLe(key(x), key(s[0])) {
      InsertAscTextPermutes(x, s[1..], key);
      assert s == [s[0]] + s[1..];
    }
  }

  lemma {:induction false} InsertAscTextSorted<T>(x: T, s: seq<T>, key: T -> string)
    requires SortedAscText(s, key)
    ensures SortedAscText(InsertAscText(x, s, key), key)
    decreases |s|
  {
    var r := InsertAscText(x, s, key);
    if |s| == 0 || LexLe(key(x), key(s[0])) {
      forall i, j | 0 <= i < j < |r| ensures LexLe(key(r[i]), key(r[j])) {
        if i == 0 && j > 1 {
          LexLeTransitive(key(x), key(s[0]), key(s[j - 1]));
        }
      }
    } else {
      LexLeTotal(key(x), key(s[0]));
      var t := InsertAscText(x, s[1..], key);
      InsertAscTextSorted(x, s[1..], key);
      InsertAscTextPermutes(x, s[1..], key);
      forall j | 0 <= j < |t| ensures LexLe(key(s[0]), key(t[j])) {
        assert t[j] in multiset(t);
        if t[j] != x {
          assert t[j] in multiset(s[1..]);
          var k :| 0 <= k < |s[1..]| && s[1..][k] == t[j];
          assert LexLe(key(s[0]), key(s[k + 1]));
        }
      }
      forall i, j | 0 <= i < j < |r| ensures LexLe(key(r[i]), key(r[j])) {
        if i > 0 {
          assert r[i] == t[i - 1] && r[j] == t[j - 1];
        } else {
          assert r[j] == t[j - 1];
        }
      }
    }
  }

  /** The sort is a permutation of its input, in ascending LexLe order of the key. */
  lemma {:induction false} SortAscTextCorrect<T>(s: seq<T>, key: T -> string)
    ensures multiset(SortAscText(s, key)) == multiset(s)
    ensures SortedAscText(SortAscText(s, key), key)
    decreases |s|
  {
    if |s| > 0 {
      SortAscTextCorrect(s[1..], key);
      InsertAscTextPermutes(s[0], SortAscText(s[1..], key), key);
      InsertAscTextSorted(s[0], SortAscText(s[1..], key), key);
      assert s == [s[0]] + s[1..];
    }
  }
}
