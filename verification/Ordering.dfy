/** Python's order on strings (code point by code point) and `sorted(set(...))`. */
module Ordering {

  /** Strict lexicographic order. */
  predicate Less(a: string, b: string) {
    if b == "" then false
    else if a == "" then true
    else a[0] < b[0] || (a[0] == b[0] && Less(a[1..], b[1..]))
  }

  ghost predicate StrictlySorted(s: seq<string>) {
    forall i, j :: 0 <= i < j < |s| ==> Less(s[i], s[j])
  }

  lemma LessIrreflexive(a: string)
    ensures !Less(a, a)
  {
  }

  lemma LessTransitive(a: string, b: string, c: string)
    requires Less(a, b) && Less(b, c)
    ensures Less(a, c)
  {
  }

  lemma LessTotal(a: string, b: string)
    ensures Less(a, b) || a == b || Less(b, a)
  {
    if a != "" && b != "" && a[0] == b[0] {
      LessTotal(a[1..], b[1..]);
      assert a == [a[0]] + a[1..] && b == [b[0]] + b[1..];
    }
  }

  /** A common prefix does not change the order. */
  lemma {:induction false} LessPrefix(p: string, a: string, b: string)
    ensures Less(p + a, p + b) <==> Less(a, b)
  {
    if p == "" {
      assert p + a == a && p + b == b;
    } else {
      assert (p + a)[1..] == p[1..] + a && (p + b)[1..] == p[1..] + b;
      LessPrefix(p[1..], a, b);
    }
  }

  function Insert(x: string, s: seq<string>): seq<string> {
    if s == [] then [x]
    else if x == s[0] then s
    else if Less(x, s[0]) then [x] + s
    else [s[0]] + Insert(x, s[1..])
  }

  lemma {:induction false} InsertSorted(x: string, s: seq<string>)
    requires StrictlySorted(s)
    ensures StrictlySorted(Insert(x, s))
    ensures forall y :: y in Insert(x, s) <==> y == x || y in s
  {
    if s != [] && x != s[0] {
      if Less(x, s[0]) {
        forall j | 0 <= j < |s| ensures Less(x, s[j]) {
          if j > 0 {
            LessTransitive(x, s[0], s[j]);
          }
        }
      } else {
        InsertSorted(x, s[1..]);
        LessTotal(x, s[0]);
        var r := Insert(x, s[1..]);
        forall j | 0 <= j < |r| ensures Less(s[0], r[j]) {
          assert r[j] in r;
        }
        assert s == [s[0]] + s[1..];
      }
    }
  }

  /** `sorted(set(s))`. */
  function SortedSet(s: seq<string>): seq<string> {
    if s == [] then [] else Insert(s[0], SortedSet(s[1..]))
  }

  lemma {:induction false} SortedSetCorrect(s: seq<string>)
    ensures StrictlySorted(SortedSet(s))
    ensures forall y :: y in SortedSet(s) <==> y in s
  {
    if s != [] {
      SortedSetCorrect(s[1..]);
      InsertSorted(s[0], SortedSet(s[1..]));
    }
  }
}
