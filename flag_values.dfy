/** The three composite flag values of config/flagset.go and their text grammars:
    a key/value map written `k1=v1;k2=v2`, a comma-separated list of such maps,
    and a comma-separated list of trimmed, non-empty strings. */
module FlagValues {
  import opened GoStrings

  type KV = map<string, string>

  // ----- kvParse and kvString -----

  /** The key of one `;`-separated token: the text before the first `=`, trimmed. */
  function TokenKey(t: string): string {
    TrimSpace(Before(t, '='))
  }

  /** The value of one token: the untrimmed text after the first `=`, or "" without one. */
  function TokenValue(t: string): string {
    After(t, '=')
  }

  /** A token splits at its first `=` into the key, trimmed and free of `=`, and the
      untrimmed value; a token without `=` is all key, with value "". */
  lemma TokenParts(t: string)
    ensures '=' !in TokenKey(t) && TrimSpace(TokenKey(t)) == TokenKey(t)
    ensures '=' in t ==> exists raw :: t == raw + "=" + TokenValue(t) && '=' !in raw && TokenKey(t) == TrimSpace(raw)
    ensures '=' !in t ==> TokenKey(t) == TrimSpace(t) && TokenValue(t) == ""
  {
    TrimSpaceAvoids(Before(t, '='), '=');
    TrimSpaceIdempotent(Before(t, '='));
    if '=' in t {
      var raw := Before(t, '=');
      assert t == raw + "=" + TokenValue(t);
    }
  }

  /** Enters the tokens in order, so a later token overwrites an earlier one with the same key. */
  function ParseTokens(toks: seq<string>): (m: KV)
    ensures toks != [] ==> TokenKey(toks[|toks| - 1]) in m
  {
    if toks == [] then map[]
    else
      var last := toks[|toks| - 1];
      ParseTokens(toks[..|toks| - 1])[TokenKey(last) := TokenValue(last)]
  }

  /** `kvParse`. */
  function KvParse(s: string): (m: KV)
    ensures |m| > 0
  {
    var toks := Split(s, ';');
    ParseTokensHas(toks, 0);
    ParseTokens(toks)
  }

  /** `k=v` for every key, in the order of `keys`. */
  function Entries(keys: seq<string>, m: KV): (es: seq<string>)
    requires forall i :: 0 <= i < |keys| ==> keys[i] in m
    ensures |es| == |keys|
  {
    seq(|keys|, i requires 0 <= i < |keys| => keys[i] + ['='] + m[keys[i]])
  }

  /** `kvString`: the entries in ascending key order, joined by `;`. */
  function KvString(m: KV): (s: string)
    ensures s == "" <==> |m| == 0
  {
    var keys := SortedKeys(m.Keys);
    var es := Entries(keys, m);
    if |m| == 0 then
      assert es == [];
      Join(es, ';')
    else
      JoinNonEmpty(es, ';');
      Join(es, ';')
  }

  lemma {:induction false} JoinNonEmpty(parts: seq<string>, sep: char)
    requires |parts| > 0 && parts[0] != ""
    ensures Join(parts, sep) != ""
  {
  }

  // ----- properties of kvParse -----

  /** Every token contributes its key. */
  lemma {:induction false} ParseTokensHas(toks: seq<string>, i: nat)
    requires i < |toks|
    ensures TokenKey(toks[i]) in ParseTokens(toks)
    decreases |toks|
  {
    if i < |toks| - 1 {
      var init := toks[..|toks| - 1];
      assert init[i] == toks[i];
      ParseTokensHas(init, i);
    }
  }

  /** Every key comes from some token. */
  lemma {:induction false} ParseTokensOnly(toks: seq<string>, k: string)
    requires k in ParseTokens(toks)
    ensures exists i :: 0 <= i < |toks| && TokenKey(toks[i]) == k
    decreases |toks|
  {
    var n := |toks| - 1;
    if TokenKey(toks[n]) != k {
      var init := toks[..n];
      ParseTokensOnly(init, k);
      var i :| 0 <= i < |init| && TokenKey(init[i]) == k;
      assert init[i] == toks[i];
    }
  }

  /** The value of a key is that of its last token. */
  lemma {:induction false} ParseTokensLastWins(toks: seq<string>, i: nat)
    requires i < |toks|
    requires forall j :: i < j < |toks| ==> TokenKey(toks[j]) != TokenKey(toks[i])
    ensures TokenKey(toks[i]) in ParseTokens(toks)
    ensures ParseTokens(toks)[TokenKey(toks[i])] == TokenValue(toks[i])
    decreases |toks|
  {
    var n := |toks| - 1;
    var init, last := toks[..n], toks[n];
    assert ParseTokens(toks) == ParseTokens(init)[TokenKey(last) := TokenValue(last)];
    if i < n {
      assert forall j :: i < j < |init| ==> init[j] == toks[j];
      assert init[i] == toks[i];
      ParseTokensLastWins(init, i);
      assert TokenKey(last) != TokenKey(toks[i]);
    }
  }

  /** kvParse has one key per token: the trimmed text before the first `=`; the value is the
      untrimmed rest of the LAST token with that key, "" for a token without `=`. */
  lemma KvParseEntry(s: string, i: nat)
    requires i < |Split(s, ';')|
    requires forall j :: i < j < |Split(s, ';')| ==> TokenKey(Split(s, ';')[j]) != TokenKey(Split(s, ';')[i])
    ensures TokenKey(Split(s, ';')[i]) in KvParse(s)
    ensures KvParse(s)[TokenKey(Split(s, ';')[i])] == After(Split(s, ';')[i], '=')
    ensures '=' !in Split(s, ';')[i] ==> KvParse(s)[TokenKey(Split(s, ';')[i])] == ""
  {
    ParseTokensHas(Split(s, ';'), i);
    ParseTokensLastWins(Split(s, ';'), i);
  }

  /** The empty text parses to the one-entry map {"": ""}, while the empty map renders as
      "": an empty map does not survive a round trip. */
  lemma EmptyMapDoesNotRoundTrip()
    ensures KvParse("") == map["" := ""]
    ensures KvString(map[]) == ""
    ensures KvParse(KvString(map[])) != map[]
  {
    assert Split("", ';') == [""];
    assert TrimSpace("") == "";
  }

  /** No key and no value of `m` holds `c`. */
  predicate Avoids(m: KV, c: char) {
    forall k :: k in m ==> c !in k && c !in m[k]
  }

  /** A map that kvString renders and kvParse reads back unchanged: non-empty, keys trimmed
      and free of `;` and `=`, values free of `;`. */
  predicate WellFormed(m: KV) {
    && |m| > 0
    && Avoids(m, ';')
    && forall k :: k in m ==> TrimSpace(k) == k && '=' !in k
  }

  lemma {:induction false} ParseTokensAvoid(toks: seq<string>, c: char)
    requires forall i :: 0 <= i < |toks| ==> c !in toks[i]
    ensures Avoids(ParseTokens(toks), c)
    decreases |toks|
  {
    if toks != [] {
      var last := toks[|toks| - 1];
      var init := toks[..|toks| - 1];
      assert forall i :: 0 <= i < |init| ==> init[i] == toks[i];
      ParseTokensAvoid(init, c);
      assert c !in Before(last, '=');
      TrimSpaceAvoids(Before(last, '='), c);
      if '=' in last {
        assert last == Before(last, '=') + ['='] + After(last, '=');
        assert forall j :: 0 <= j < |After(last, '=')| ==> After(last, '=')[j] == last[|Before(last, '=')| + 1 + j];
      }
      assert Before(last, '=') == last[..|Before(last, '=')|];
    }
  }

  /** The pieces of a split avoid every character the whole avoids. */
  lemma {:induction false} SplitAvoids(s: string, sep: char, c: char)
    requires c !in s
    ensures forall i :: 0 <= i < |Split(s, sep)| ==> c !in Split(s, sep)[i]
    decreases |s|
  {
    if sep in s {
      var i := IndexOf(s, sep);
      assert s == s[..i] + [sep] + s[i + 1..];
      SplitAvoids(s[i + 1..], sep, c);
    }
  }

  lemma {:induction false} ParsedKeysWellFormed(toks: seq<string>)
    ensures forall k :: k in ParseTokens(toks) ==> TrimSpace(k) == k && '=' !in k
    decreases |toks|
  {
    if toks != [] {
      var last := toks[|toks| - 1];
      ParsedKeysWellFormed(toks[..|toks| - 1]);
      TrimSpaceIdempotent(Before(last, '='));
      TrimSpaceAvoids(Before(last, '='), '=');
    }
  }

  /** Everything kvParse produces is well formed, and holds only characters of its input. */
  lemma KvParseWellFormed(s: string)
    ensures WellFormed(KvParse(s))
    ensures forall c :: c !in s ==> Avoids(KvParse(s), c)
  {
    ParseTokensAvoid(Split(s, ';'), ';');
    ParsedKeysWellFormed(Split(s, ';'));
    forall c | c !in s ensures Avoids(KvParse(s), c) {
      SplitAvoids(s, ';', c);
      ParseTokensAvoid(Split(s, ';'), c);
    }
  }

  // ----- the round trip -----

  /** One rendered entry `k=v` parses back to the key `k` and the value `v`. */
  lemma EntryParses(k: string, v: string)
    requires TrimSpace(k) == k && '=' !in k
    ensures TokenKey(k + ['='] + v) == k && TokenValue(k + ['='] + v) == v
  {
    CutAfter(k, '=', v);
  }

  /** Parsing one more entry enters its key and value. */
  lemma ParseEntriesSnoc(keys: seq<string>, m: KV)
    requires keys != []
    requires forall i :: 0 <= i < |keys| ==> keys[i] in m
    requires TrimSpace(keys[|keys| - 1]) == keys[|keys| - 1] && '=' !in keys[|keys| - 1]
    ensures ParseTokens(Entries(keys, m))
         == ParseTokens(Entries(keys[..|keys| - 1], m))[keys[|keys| - 1] := m[keys[|keys| - 1]]]
  {
    var n := |keys| - 1;
    var es := Entries(keys, m);
    assert es[..n] == Entries(keys[..n], m);
    EntryParses(keys[n], m[keys[n]]);
  }

  /** `r` holds exactly the keys listed, each with its value in `m`. */
  ghost predicate Rebuilds(r: KV, keys: seq<string>, m: KV) {
    && (forall k :: k in r <==> k in keys)
    && (forall k :: k in keys ==> k in m && r[k] == m[k])
  }

  /** Parsing the entries of some keys of `m` rebuilds `m` on exactly those keys. */
  lemma {:induction false} ParseEntries(keys: seq<string>, m: KV)
    requires forall i :: 0 <= i < |keys| ==> keys[i] in m
    requires forall k :: k in m ==> TrimSpace(k) == k && '=' !in k
    ensures Rebuilds(ParseTokens(Entries(keys, m)), keys, m)
    decreases |keys|
  {
    if keys != [] {
      var n := |keys| - 1;
      ParseEntries(keys[..n], m);
      ParseEntriesSnoc(keys, m);
      ExtendKeys(ParseTokens(Entries(keys[..n], m)), ParseTokens(Entries(keys, m)), keys, m);
    }
  }

  /** Entering the last key of `keys` keeps a map that agrees with `m` on the keys listed. */
  lemma ExtendKeys(r0: KV, r: KV, keys: seq<string>, m: KV)
    requires keys != [] && keys[|keys| - 1] in m
    requires r == r0[keys[|keys| - 1] := m[keys[|keys| - 1]]]
    requires Rebuilds(r0, keys[..|keys| - 1], m)
    ensures Rebuilds(r, keys, m)
  {
    assert keys == keys[..|keys| - 1] + [keys[|keys| - 1]];
  }

  /** No entry of a map without `;` holds `;`; no entry of a map without `c` holds `c`. */
  lemma EntriesAvoid(keys: seq<string>, m: KV, c: char)
    requires forall i :: 0 <= i < |keys| ==> keys[i] in m
    requires Avoids(m, c) && c != '='
    ensures forall i :: 0 <= i < |keys| ==> c !in Entries(keys, m)[i]
  {
  }

  /** kvParse reads back every well-formed map kvString writes. */
  lemma KvRoundTrip(m: KV)
    requires WellFormed(m)
    ensures KvParse(KvString(m)) == m
  {
    KvStringEntries(m);
    SortedEntriesParse(m);
  }

  /** Parsing the sorted entries of a map with trimmed, `=`-free keys gives the map. */
  lemma SortedEntriesParse(m: KV)
    requires forall k :: k in m ==> TrimSpace(k) == k && '=' !in k
    ensures ParseTokens(Entries(SortedKeys(m.Keys), m)) == m
  {
    var keys := SortedKeys(m.Keys);
    ParseEntries(keys, m);
    SameMap(ParseTokens(Entries(keys, m)), keys, m);
  }

  lemma SameMap(r: KV, keys: seq<string>, m: KV)
    requires forall k :: k in r <==> k in keys
    requires forall k :: k in keys <==> k in m
    requires forall k :: k in keys ==> r[k] == m[k]
    ensures r == m
  {
  }

  /** Normalising through kvString is idempotent: parsing the canonical form of a parsed
      text gives the same map. */
  lemma KvNormalizeIdempotent(s: string)
    ensures KvParse(KvString(KvParse(s))) == KvParse(s)
  {
    KvParseWellFormed(s);
    KvRoundTrip(KvParse(s));
  }

  /** Splitting kvString's output on `;` gives the `k=v` entries in ascending key order. */
  lemma KvStringEntries(m: KV)
    requires |m| > 0 && Avoids(m, ';')
    ensures Split(KvString(m), ';') == Entries(SortedKeys(m.Keys), m)
    ensures StrictlySorted(SortedKeys(m.Keys))
  {
    var keys := SortedKeys(m.Keys);
    EntriesAvoid(keys, m, ';');
    SplitJoin(Entries(keys, m), ';');
  }

  lemma KvStringAvoids(m: KV, c: char)
    requires Avoids(m, c) && c != '=' && c != ';'
    ensures c !in KvString(m)
  {
    var keys := SortedKeys(m.Keys);
    EntriesAvoid(keys, m, c);
    JoinAvoids(Entries(keys, m), ';', c);
  }

  /** `kvValue`: a map flag; `Set` replaces the whole map. */
  class KvValue {
    var kv: KV

    /** `newKVValue`: the destination starts out as the default. */
    constructor (init: KV)
      ensures kv == init
    {
      kv := init;
    }

    /** Always succeeds (Go returns nil) and keeps nothing of the previous map. */
    method Set(s: string)
      modifies this
      ensures kv == KvParse(s)
      ensures WellFormed(kv)
    {
      kv := KvParse(s);
      KvParseWellFormed(s);
    }

    /** The canonical text, which `Set` reads back to the same map whenever the map is one
        `Set` could have produced. */
    function String(): (r: string)
      reads this
      ensures WellFormed(kv) ==> KvParse(r) == kv
      ensures r == "" <==> |kv| == 0
    {
      if WellFormed(kv) then
        KvRoundTrip(kv);
        KvString(kv)
      else
        KvString(kv)
    }
  }

  // ----- kvSliceValue -----

  /** `kvSliceValue.Set`: one map per `,`-separated segment, in order. */
  function KvSliceParse(s: string): (v: seq<KV>)
    ensures |v| == Count(s, ',') + 1
  {
    var segs := Split(s, ',');
    SplitCount(s, ',');
    seq(|segs|, i requires 0 <= i < |segs| => KvParse(segs[i]))
  }

  /** `kvSliceValue.String`. */
  function KvSliceString(v: seq<KV>): (r: string)
    ensures SliceWellFormed(v) ==> Split(r, ',') == seq(|v|, i requires 0 <= i < |v| => KvString(v[i]))
  {
    var texts := seq(|v|, i requires 0 <= i < |v| => KvString(v[i]));
    if SliceWellFormed(v) then
      KvStringsAvoidComma(v);
      SplitJoin(texts, ',');
      Join(texts, ',')
    else
      Join(texts, ',')
  }

  lemma KvStringsAvoidComma(v: seq<KV>)
    requires forall i :: 0 <= i < |v| ==> Avoids(v[i], ',')
    ensures forall i :: 0 <= i < |v| ==> ',' !in KvString(v[i])
  {
    forall i | 0 <= i < |v| ensures ',' !in KvString(v[i]) {
      KvStringAvoids(v[i], ',');
    }
  }

  /** A list of maps that the KV-slice grammar reads back unchanged. */
  predicate SliceWellFormed(v: seq<KV>) {
    |v| > 0 && forall i :: 0 <= i < |v| ==> WellFormed(v[i]) && Avoids(v[i], ',')
  }

  /** The i-th map is kvParse of the i-th segment, and every map is well formed. */
  lemma KvSliceParseSegments(s: string)
    ensures forall i :: 0 <= i < |KvSliceParse(s)| ==> KvSliceParse(s)[i] == KvParse(Split(s, ',')[i])
    ensures SliceWellFormed(KvSliceParse(s))
  {
    var segs := Split(s, ',');
    forall i | 0 <= i < |segs| ensures WellFormed(KvParse(segs[i])) && Avoids(KvParse(segs[i]), ',') {
      KvParseWellFormed(segs[i]);
    }
  }

  lemma KvSliceRoundTrip(v: seq<KV>)
    requires SliceWellFormed(v)
    ensures KvSliceParse(KvSliceString(v)) == v
  {
    var texts := seq(|v|, i requires 0 <= i < |v| => KvString(v[i]));
    forall i | 0 <= i < |v| ensures ',' !in texts[i] && KvParse(texts[i]) == v[i] {
      KvStringAvoids(v[i], ',');
      KvRoundTrip(v[i]);
    }
    SplitJoin(texts, ',');
  }

  /** Normalising a KV-slice text is idempotent. */
  lemma KvSliceNormalizeIdempotent(s: string)
    ensures KvSliceParse(KvSliceString(KvSliceParse(s))) == KvSliceParse(s)
  {
    KvSliceParseSegments(s);
    KvSliceRoundTrip(KvSliceParse(s));
  }

  /** `kvSliceValue`: a list-of-maps flag; `Set` replaces the whole list. */
  class KvSliceValue {
    var items: seq<KV>

    constructor (init: seq<KV>)
      ensures items == init
    {
      items := init;
    }

    /** Always succeeds; builds the list segment by segment. */
    method Set(s: string)
      modifies this
      ensures items == KvSliceParse(s)
    {
      var segs := Split(s, ',');
      items := [];
      var i := 0;
      while i < |segs|
        invariant 0 <= i <= |segs|
        invariant items == seq(i, j requires 0 <= j < i => KvParse(segs[j]))
      {
        items := items + [KvParse(segs[i])];
        i := i + 1;
      }
    }

    function String(): (r: string)
      reads this
      ensures SliceWellFormed(items) ==> KvSliceParse(r) == items
    {
      if SliceWellFormed(items) then
        KvSliceRoundTrip(items);
        KvSliceString(items)
      else
        KvSliceString(items)
    }
  }

  // ----- stringSliceValue -----

  /** The trimmed, non-empty pieces, in order. */
  function KeepNonEmpty(parts: seq<string>): (v: seq<string>)
    ensures |v| <= |parts|
  {
    if parts == [] then []
    else
      var t := TrimSpace(parts[|parts| - 1]);
      KeepNonEmpty(parts[..|parts| - 1]) + (if t == "" then [] else [t])
  }

  /** `stringSliceValue.Set`. */
  function StringSliceParse(s: string): (v: seq<string>)
    ensures |v| <= Count(s, ',') + 1
  {
    SplitCount(s, ',');
    KeepNonEmpty(Split(s, ','))
  }

  /** A list the string-slice grammar reads back unchanged: each item trimmed, non-empty
      and free of `,`. */
  predicate CleanItems(v: seq<string>) {
    forall i :: 0 <= i < |v| ==> v[i] != "" && TrimSpace(v[i]) == v[i] && ',' !in v[i]
  }

  lemma {:induction false} KeepNonEmptyClean(parts: seq<string>)
    requires forall i :: 0 <= i < |parts| ==> ',' !in parts[i]
    ensures CleanItems(KeepNonEmpty(parts))
    decreases |parts|
  {
    if parts != [] {
      var init := parts[..|parts| - 1];
      assert forall i :: 0 <= i < |init| ==> init[i] == parts[i];
      KeepNonEmptyClean(init);
      TrimSpaceIdempotent(parts[|parts| - 1]);
      TrimSpaceAvoids(parts[|parts| - 1], ',');
    }
  }

  /** Every item `Set` keeps is trimmed, non-empty and free of `,`. */
  lemma StringSliceParseClean(s: string)
    ensures CleanItems(StringSliceParse(s))
  {
    KeepNonEmptyClean(Split(s, ','));
  }

  lemma {:induction false} KeepNonEmptyOfClean(v: seq<string>)
    requires CleanItems(v)
    ensures KeepNonEmpty(v) == v
    decreases |v|
  {
    if v != [] {
      var last := v[|v| - 1];
      var init := v[..|v| - 1];
      assert CleanItems(init) by {
        assert forall i :: 0 <= i < |init| ==> init[i] == v[i];
      }
      KeepNonEmptyOfClean(init);
      assert TrimSpace(last) == last && last != "";
      assert v == init + [last];
    }
  }

  /** `Set(String(v))` restores every list `Set` can produce, the empty list included. */
  lemma StringSliceRoundTrip(v: seq<string>)
    requires CleanItems(v)
    ensures StringSliceParse(Join(v, ',')) == v
  {
    if v == [] {
      assert Split("", ',') == [""];
      assert TrimSpace("") == "";
    } else {
      SplitJoin(v, ',');
      KeepNonEmptyOfClean(v);
    }
  }

  lemma SplitExample()
    ensures Split(" a , ,b", ',') == [" a ", " ", "b"]
  {
    var parts := [" a ", " ", "b"];
    assert Join(parts[2..], ',') == "b";
    assert Join(parts[1..], ',') == " ,b";
    assert Join(parts, ',') == " a , ,b";
    SplitJoin(parts, ',');
  }

  lemma TrimExamples()
    ensures TrimSpace(" a ") == "a" && TrimSpace(" ") == "" && TrimSpace("b") == "b"
  {
    assert TrimLeftSpace(" a ") == "a ";
    assert TrimRightSpace("a ") == "a";
    assert TrimLeftSpace(" ") == "";
  }

  /** Segments that are blank after trimming are dropped. */
  lemma StringSliceExample()
    ensures StringSliceParse(" a , ,b") == ["a", "b"]
  {
    SplitExample();
    KeepNonEmptyExample();
  }

  lemma KeepNonEmptyExample()
    ensures KeepNonEmpty([" a ", " ", "b"]) == ["a", "b"]
  {
    TrimExamples();
    KeepNonEmptySnoc([], " a ");
    KeepNonEmptySnoc([" a "], " ");
    KeepNonEmptySnoc([" a ", " "], "b");
  }

  /** One more segment adds its trimmed text when that is not blank. */
  lemma KeepNonEmptySnoc(parts: seq<string>, x: string)
    ensures KeepNonEmpty(parts + [x])
         == KeepNonEmpty(parts) + (if TrimSpace(x) == "" then [] else [TrimSpace(x)])
  {
    assert (parts + [x])[..|parts|] == parts;
  }

  /** `stringSliceValue`: a list-of-strings flag; `Set` replaces the whole list. */
  class StringSliceValue {
    var items: seq<string>

    constructor (init: seq<string>)
      ensures items == init
    {
      items := init;
    }

    /** Always succeeds; trims every segment and skips the blank ones. */
    method Set(s: string)
      modifies this
      ensures items == StringSliceParse(s)
      ensures CleanItems(items)
    {
      var segs := Split(s, ',');
      items := [];
      var i := 0;
      while i < |segs|
        invariant 0 <= i <= |segs|
        invariant items == KeepNonEmpty(segs[..i])
      {
        assert segs[..i + 1][..i] == segs[..i];
        var x := TrimSpace(segs[i]);
        if x != "" {
          items := items + [x];
        }
        i := i + 1;
      }
      assert segs[..|segs|] == segs;
      StringSliceParseClean(s);
    }

    function String(): (r: string)
      reads this
      ensures CleanItems(items) ==> StringSliceParse(r) == items
    {
      if CleanItems(items) then
        StringSliceRoundTrip(items);
        Join(items, ',')
      else
        Join(items, ',')
    }
  }
}
