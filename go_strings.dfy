/** The handful of Go `strings` and `sort` primitives the configuration code
    relies on: prefix tests, splitting on a one-character separator, joining,
    trimming, ASCII upper-casing, character replacement and the byte order
    `sort.Strings` uses. Strings are sequences of Unicode code points. */
module GoStrings {

  predicate HasPrefix(s: string, prefix: string) {
    |prefix| <= |s| && s[..|prefix|] == prefix
  }

  /** Position of the first `c` in `s`. */
  function IndexOf(s: string, c: char): (i: nat)
    requires c in s
    ensures i < |s| && s[i] == c
    ensures c !in s[..i]
  {
    if s[0] == c then 0
    else
      var j := IndexOf(s[1..], c);
      assert s[..j + 1] == [s[0]] + s[1..][..j];
      j + 1
  }

  /** Number of occurrences of `c` in `s` (`strings.Count` with a one-character separator). */
  function Count(s: string, c: char): nat {
    multiset(s)[c]
  }

  /** `strings.Split(s, string(sep))`: the pieces between separators; never empty. */
  function Split(s: string, sep: char): (parts: seq<string>)
    ensures |parts| > 0
    ensures forall i :: 0 <= i < |parts| ==> sep !in parts[i]
    decreases |s|
  {
    if sep in s then
      var i := IndexOf(s, sep);
      [s[..i]] + Split(s[i + 1..], sep)
    else
      [s]
  }

  /** There is one more piece than there are separators. */
  lemma {:induction false} SplitCount(s: string, sep: char)
    ensures |Split(s, sep)| == Count(s, sep) + 1
    decreases |s|
  {
    if sep in s {
      var i := IndexOf(s, sep);
      SplitCount(s[i + 1..], sep);
      assert s == s[..i] + [s[i]] + s[i + 1..];
      assert multiset(s)[sep] == multiset(s[..i])[sep] + 1 + multiset(s[i + 1..])[sep];
    }
  }

  /** `strings.Join(parts, string(sep))`. */
  function Join(parts: seq<string>, sep: char): string {
    if |parts| == 0 then ""
    else if |parts| == 1 then parts[0]
    else parts[0] + [sep] + Join(parts[1..], sep)
  }

  /** Splitting a joined list gives the list back when no piece holds the separator. */
  lemma {:induction false} SplitJoin(parts: seq<string>, sep: char)
    requires |parts| > 0
    requires forall i :: 0 <= i < |parts| ==> sep !in parts[i]
    ensures Split(Join(parts, sep), sep) == parts
  {
    if |parts| > 1 {
      var s := Join(parts, sep);
      var p := parts[0];
      assert s == p + [sep] + Join(parts[1..], sep);
      IndexOfAfter(p, sep, Join(parts[1..], sep));
      assert s[|p|] == sep;
      assert s[..|p|] == p;
      assert s[|p| + 1..] == Join(parts[1..], sep);
      assert Split(s, sep) == [p] + Split(Join(parts[1..], sep), sep);
      SplitJoin(parts[1..], sep);
      assert parts == [p] + parts[1..];
    }
  }

  /** The first separator of `p + [sep] + t` is the one right after `p`. */
  lemma {:induction false} IndexOfAfter(p: string, sep: char, t: string)
    requires sep !in p
    ensures IndexOf(p + [sep] + t, sep) == |p|
  {
    if |p| > 0 {
      assert (p + [sep] + t)[1..] == p[1..] + [sep] + t;
      IndexOfAfter(p[1..], sep, t);
    }
  }

  /** A character other than the separator that no piece holds is absent from the join. */
  lemma {:induction false} JoinAvoids(parts: seq<string>, sep: char, c: char)
    requires c != sep
    requires forall i :: 0 <= i < |parts| ==> c !in parts[i]
    ensures c !in Join(parts, sep)
  {
    if |parts| > 1 {
      JoinAvoids(parts[1..], sep, c);
    }
  }

  /** Text before the first `c`, or all of `s` (first half of `strings.SplitN(s, string(c), 2)`). */
  function Before(s: string, c: char): (r: string)
    ensures c !in r
    ensures HasPrefix(s, r)
  {
    if c in s then s[..IndexOf(s, c)] else s
  }

  /** Text after the first `c`, or "" when `s` has none. */
  function After(s: string, c: char): (r: string)
    ensures c in s ==> s == Before(s, c) + [c] + r
    ensures c !in s ==> r == ""
  {
    if c in s then s[IndexOf(s, c) + 1..] else ""
  }

  /** Cutting `p + [c] + t` at its first `c` gives back `p` and `t`. */
  lemma CutAfter(p: string, c: char, t: string)
    requires c !in p
    ensures Before(p + [c] + t, c) == p
    ensures After(p + [c] + t, c) == t
  {
    IndexOfAfter(p, c, t);
  }

  /** Go's `unicode.IsSpace`: the Unicode White_Space characters. */
  predicate IsSpace(c: char) {
    c == ' ' || ('\t' <= c <= '\r') || c == '\U{0085}' || c == '\U{00A0}' || c == '\U{1680}'
    || ('\U{2000}' <= c <= '\U{200A}') || c == '\U{2028}' || c == '\U{2029}' || c == '\U{202F}'
    || c == '\U{205F}' || c == '\U{3000}'
  }

  /** Drops leading white space. */
  function TrimLeftSpace(s: string): (r: string)
    ensures |r| <= |s|
    ensures r == [] || !IsSpace(r[0])
  {
    if |s| > 0 && IsSpace(s[0]) then TrimLeftSpace(s[1..]) else s
  }

  /** Drops trailing white space. */
  function TrimRightSpace(s: string): (r: string)
    ensures |r| <= |s| && r == s[..|r|]
    ensures r == [] || !IsSpace(r[|r| - 1])
  {
    if |s| > 0 && IsSpace(s[|s| - 1]) then TrimRightSpace(s[..|s| - 1]) else s
  }

  /** `strings.TrimSpace`. */
  function TrimSpace(s: string): (r: string)
    ensures r == [] || (!IsSpace(r[0]) && !IsSpace(r[|r| - 1]))
  {
    TrimRightSpace(TrimLeftSpace(s))
  }

  /** Trimming twice is trimming once. */
  lemma TrimSpaceIdempotent(s: string)
    ensures TrimSpace(TrimSpace(s)) == TrimSpace(s)
  {
    var r := TrimSpace(s);
    assert TrimLeftSpace(r) == r;
  }

  lemma {:induction false} TrimLeftSpaceAvoids(s: string, c: char)
    requires c !in s
    ensures c !in TrimLeftSpace(s)
    decreases |s|
  {
    if |s| > 0 && IsSpace(s[0]) {
      TrimLeftSpaceAvoids(s[1..], c);
    }
  }

  lemma {:induction false} TrimRightSpaceAvoids(s: string, c: char)
    requires c !in s
    ensures c !in TrimRightSpace(s)
    decreases |s|
  {
    if |s| > 0 && IsSpace(s[|s| - 1]) {
      TrimRightSpaceAvoids(s[..|s| - 1], c);
    }
  }

  /** Trimming adds no character. */
  lemma TrimSpaceAvoids(s: string, c: char)
    requires c !in s
    ensures c !in TrimSpace(s)
  {
    TrimLeftSpaceAvoids(s, c);
    TrimRightSpaceAvoids(TrimLeftSpace(s), c);
  }

  /** Drops every leading `c`. */
  function TrimLeftChar(s: string, c: char): (r: string)
    ensures |r| <= |s|
    ensures r == [] || r[0] != c
    ensures r == [] <==> forall k :: 0 <= k < |s| ==> s[k] == c
  {
    if |s| > 0 && s[0] == c then TrimLeftChar(s[1..], c) else s
  }

  /** `TrimLeftChar` keeps a suffix of `s` and drops nothing but `c`. */
  lemma {:induction false} TrimLeftSlice(s: string, c: char)
    ensures TrimLeftChar(s, c) == s[|s| - |TrimLeftChar(s, c)|..]
    ensures forall k :: 0 <= k < |s| - |TrimLeftChar(s, c)| ==> s[k] == c
  {
    if |s| > 0 && s[0] == c {
      TrimLeftSlice(s[1..], c);
      assert forall k :: 1 <= k < |s| ==> s[k] == s[1..][k - 1];
    }
  }

  /** Drops every trailing `c`. */
  function TrimRightChar(s: string, c: char): (r: string)
    ensures |r| <= |s|
    ensures r == [] || r[|r| - 1] != c
    ensures r == [] <==> forall k :: 0 <= k < |s| ==> s[k] == c
  {
    if |s| > 0 && s[|s| - 1] == c then TrimRightChar(s[..|s| - 1], c) else s
  }

  /** `TrimRightChar` keeps a prefix of `s` and drops nothing but `c`. */
  lemma {:induction false} TrimRightSlice(s: string, c: char)
    ensures TrimRightChar(s, c) == s[..|TrimRightChar(s, c)|]
    ensures forall k :: |TrimRightChar(s, c)| <= k < |s| ==> s[k] == c
  {
    if |s| > 0 && s[|s| - 1] == c {
      TrimRightSlice(s[..|s| - 1], c);
    }
  }

  /** `strings.Trim(s, string(c))`: strips every leading and trailing `c`. */
  function Trim(s: string, c: char): (r: string)
    ensures r == [] || (r[0] != c && r[|r| - 1] != c)
    ensures r == [] <==> forall k :: 0 <= k < |s| ==> s[k] == c
  {
    var t := TrimLeftChar(s, c);
    var r := TrimRightChar(t, c);
    TrimLeftSlice(s, c);
    TrimRightSlice(t, c);
    TrimParts(s, c, t, r, |s| - |t|);
    r
  }

  /** What `Trim` keeps is one slice of `s`, starting where `TrimLeftChar` stopped:
      its characters are those of `s` from `a` on, and everything before and after them
      is `c`. */
  lemma TrimSlice(s: string, c: char, a: nat)
    requires a == |s| - |TrimLeftChar(s, c)|
    ensures a + |Trim(s, c)| <= |s|
    ensures forall k :: 0 <= k < |Trim(s, c)| ==> Trim(s, c)[k] == s[a + k]
    ensures forall k :: 0 <= k < a ==> s[k] == c
    ensures forall k :: a + |Trim(s, c)| <= k < |s| ==> s[k] == c
  {
    var t := TrimLeftChar(s, c);
    TrimLeftSlice(s, c);
    TrimRightSlice(t, c);
    TrimParts(s, c, t, Trim(s, c), a);
  }

  /** Dropping `c`s from the front (leaving `t`, which starts at `a`) and then from the back
      (leaving `r`) leaves a slice of `s` with only `c`s around it, which is empty exactly
      when `s` is all `c`. */
  lemma TrimParts(s: string, c: char, t: string, r: string, a: nat)
    requires a + |t| == |s| && t == s[a..] && forall k :: 0 <= k < a ==> s[k] == c
    requires t == [] || t[0] != c
    requires |r| <= |t| && r == t[..|r|] && forall k :: |r| <= k < |t| ==> t[k] == c
    ensures a + |r| <= |s| && r == s[a..a + |r|]
    ensures forall k :: 0 <= k < |r| ==> r[k] == s[a + k]
    ensures forall k :: a + |r| <= k < |s| ==> s[k] == c
    ensures r == [] <==> forall k :: 0 <= k < |s| ==> s[k] == c
  {
    forall k | a + |r| <= k < |s| ensures s[k] == c {
      assert s[k] == t[k - a];
    }
    if r != [] {
      assert s[a] == r[0] && s[a] != c;
    }
  }

  /** Trimming `c` from a text wrapped in one `c` on each side gives back the text, when
      the text neither starts nor ends with `c`. */
  lemma TrimWrapped(p: string, c: char)
    requires p != [] && p[0] != c && p[|p| - 1] != c
    ensures Trim([c] + p + [c], c) == p
  {
    assert ([c] + p + [c])[1..] == p + [c];
    assert (p + [c])[0] == p[0];
    assert TrimLeftChar([c] + p + [c], c) == p + [c];
    var w := p + [c];
    assert w[|w| - 1] == c && w[..|w| - 1] == p;
    assert TrimRightChar(w, c) == TrimRightChar(p, c) == p;
  }

  function UpperChar(c: char): char {
    if 'a' <= c <= 'z' then (c as int - 32) as char else c
  }

  /** `strings.ToUpper`, restricted to the ASCII letters. */
  function ToUpper(s: string): (r: string)
    ensures |r| == |s|
    ensures forall i :: 0 <= i < |s| ==> r[i] == UpperChar(s[i])
  {
    seq(|s|, i requires 0 <= i < |s| => UpperChar(s[i]))
  }

  /** `strings.Replace(s, string(a), string(b), -1)` for single characters. */
  function ReplaceAll(s: string, a: char, b: char): (r: string)
    ensures |r| == |s|
    ensures forall i :: 0 <= i < |s| ==> r[i] == (if s[i] == a then b else s[i])
  {
    seq(|s|, i requires 0 <= i < |s| => if s[i] == a then b else s[i])
  }

  // ----- the order of sort.Strings -----

  /** Strict lexicographic order on code points (for well-formed UTF-8 this is Go's byte order). */
  predicate Less(a: string, b: string)
    decreases |a|
  {
    |b| > 0 && (|a| == 0 || a[0] < b[0] || (a[0] == b[0] && Less(a[1..], b[1..])))
  }

  lemma {:induction false} LessIrreflexive(a: string)
    ensures !Less(a, a)
    decreases |a|
  {
    if |a| > 0 {
      LessIrreflexive(a[1..]);
    }
  }

  lemma {:induction false} LessAsymmetric(a: string, b: string)
    ensures !(Less(a, b) && Less(b, a))
    decreases |a|
  {
    if |a| > 0 && |b| > 0 && a[0] == b[0] {
      LessAsymmetric(a[1..], b[1..]);
    }
  }

  lemma {:induction false} LessTransitive(a: string, b: string, c: string)
    requires Less(a, b) && Less(b, c)
    ensures Less(a, c)
    decreases |a|
  {
    if |a| > 0 && a[0] == b[0] && b[0] == c[0] {
      LessTransitive(a[1..], b[1..], c[1..]);
    }
  }

  lemma {:induction false} LessTotal(a: string, b: string)
    requires a != b
    ensures Less(a, b) || Less(b, a)
    decreases |a|
  {
    if |a| > 0 && |b| > 0 && a[0] == b[0] {
      assert a == [a[0]] + a[1..] && b == [b[0]] + b[1..];
      LessTotal(a[1..], b[1..]);
    }
  }

  predicate IsLeast(k: string, ks: set<string>) {
    k in ks && forall o :: o in ks && o != k ==> Less(k, o)
  }

  lemma {:induction false} LeastExists(ks: set<string>)
    requires ks != {}
    ensures exists k :: IsLeast(k, ks)
    decreases ks
  {
    var x :| x in ks;
    var rest := ks - {x};
    if rest == {} {
      assert ks == {x};
      assert IsLeast(x, ks);
    } else {
      LeastExists(rest);
      var m :| IsLeast(m, rest);
      if Less(x, m) {
        forall o | o in ks && o != x ensures Less(x, o) {
          if o != m { LessTransitive(x, m, o); }
        }
        assert IsLeast(x, ks);
      } else {
        LessTotal(x, m);
        forall o | o in ks && o != m ensures Less(m, o) {
          if o != x { assert o in rest; }
        }
        assert IsLeast(m, ks);
      }
    }
  }

  lemma LeastUnique(ks: set<string>)
    ensures forall k1, k2 :: IsLeast(k1, ks) && IsLeast(k2, ks) ==> k1 == k2
  {
    forall k1, k2 | IsLeast(k1, ks) && IsLeast(k2, ks) ensures k1 == k2 {
      if k1 != k2 { LessAsymmetric(k1, k2); }
    }
  }

  predicate StrictlySorted(s: seq<string>) {
    forall i, j :: 0 <= i < j < |s| ==> Less(s[i], s[j])
  }

  /** The keys of a map in the ascending order `sort.Strings` leaves them in. */
  function SortedKeys(ks: set<string>): (r: seq<string>)
    ensures |r| == |ks|
    ensures forall k :: k in r <==> k in ks
    ensures StrictlySorted(r)
    decreases ks
  {
    if ks == {} then []
    else
      LeastExists(ks);
      LeastUnique(ks);
      var k :| IsLeast(k, ks);
      var rest := SortedKeys(ks - {k});
      [k] + rest
  }
}
