/** `extract_placeholders` and `replace_template` (nodes/command_executor.py): repeated
    text replacement, key by key, compared with one simultaneous substitution. */
module Template {
  import opened Sequences

  predicate IsNameChar(c: char) { 'a' <= c <= 'z' || 'A' <= c <= 'Z' || '0' <= c <= '9' || c == '_' || c == '-' }

  predicate IsName(s: string) { s != "" && forall i :: 0 <= i < |s| ==> IsNameChar(s[i]) }

  function Pattern(key: string): (p: string)
    ensures p != ""
  {
    "{{" + key + "}}"
  }

  // ----- str.replace -----

  /** `str.replace`: from left to right, each occurrence met is replaced and skipped. */
  function Replace(s: string, pat: string, val: string): string
    requires pat != ""
    decreases |s|
  {
    if s == "" then ""
    else if pat <= s then val + Replace(s[|pat|..], pat, val)
    else [s[0]] + Replace(s[1..], pat, val)
  }

  // ----- templates as sequences of literals and placeholders -----

  datatype Segment = Lit(text: string) | Hole(name: string)

  function Text(seg: Segment): string { if seg.Lit? then seg.text else Pattern(seg.name) }

  function Render(segs: seq<Segment>): string {
    if segs == [] then "" else Text(segs[0]) + Render(segs[1..])
  }

  /** No brace of `text` is directly followed by another brace in `text + rest`. */
  ghost predicate NoDoubleBrace(text: string, rest: string) {
    forall i :: 0 <= i < |text| && text[i] == '{' && i + 1 < |text + rest| ==> (text + rest)[i + 1] != '{'
  }

  /** The literal text contains no "{{", nor a "{" directly before a placeholder. */
  ghost predicate Clean(segs: seq<Segment>) {
    segs == [] ||
    (&& (if segs[0].Lit? then NoDoubleBrace(segs[0].text, Render(segs[1..])) else IsName(segs[0].name))
     && Clean(segs[1..]))
  }

  // ----- one replacement, and the text it passes over -----

  /** No occurrence of the pattern in `text + rest` begins in `text`. */
  ghost predicate NoStartIn(text: string, rest: string, pat: string) {
    forall p :: 0 <= p < |text| ==> !OccursAt(pat, text + rest, p)
  }

  lemma {:induction false} PrefixOccurs(pat: string, s: string)
    ensures pat <= s <==> OccursAt(pat, s, 0)
  {
    assert pat <= s ==> s[..|pat|] == pat;
  }

  lemma {:induction false} ReplacePast(text: string, rest: string, pat: string, val: string)
    requires pat != "" && NoStartIn(text, rest, pat)
    ensures Replace(text + rest, pat, val) == text + Replace(rest, pat, val)
  {
    var s := text + rest;
    if text == "" {
      assert s == rest;
    } else {
      var tail := text[1..];
      assert s[0] == text[0] && s[1..] == tail + rest;
      PrefixOccurs(pat, s);
      assert !OccursAt(pat, s, 0);
      forall p | 0 <= p < |tail| ensures !OccursAt(pat, tail + rest, p) {
        assert s[p + 1..] == (tail + rest)[p..] && !OccursAt(pat, s, p + 1);
      }
      ReplacePast(tail, rest, pat, val);
    }
  }

  lemma {:induction false} OccurrenceStartsWithBraces(key: string, s: string, p: int)
    ensures OccursAt(Pattern(key), s, p) ==> p + 1 < |s| && s[p] == '{' && s[p + 1] == '{'
  {
    if OccursAt(Pattern(key), s, p) {
      var t := s[p..p + |Pattern(key)|];
      assert t[0] == Pattern(key)[0] && t[1] == Pattern(key)[1];
    }
  }

  lemma {:induction false} NoDoubleBraceNoStart(text: string, rest: string, key: string)
    requires NoDoubleBrace(text, rest)
    ensures NoStartIn(text, rest, Pattern(key))
  {
    forall p | 0 <= p < |text| ensures !OccursAt(Pattern(key), text + rest, p) {
      OccurrenceStartsWithBraces(key, text + rest, p);
    }
  }

  /** What comes before the first '}' is determined by the text. */
  lemma {:induction false} SameUpToBrace(a: string, x: string, b: string, y: string)
    requires a + "}" + x == b + "}" + y && '}' !in a && '}' !in b
    ensures a == b
  {
    assert (a + "}" + x)[0] == (b + "}" + y)[0];
    if a != "" && b != "" {
      assert (a + "}" + x)[1..] == a[1..] + "}" + x && (b + "}" + y)[1..] == b[1..] + "}" + y;
      SameUpToBrace(a[1..], x, b[1..], y);
    }
  }

  lemma {:induction false} NamesHaveNoBraces(name: string)
    requires IsName(name)
    ensures '}' !in name && '{' !in name
  {
  }

  /** "{{key}}" begins a text that begins with "{{name}}" only if the two are equal. */
  lemma {:induction false} PatternsDiffer(key: string, name: string, rest: string)
    requires '}' !in key && IsName(name)
    ensures Pattern(key) <= Pattern(name) + rest ==> key == name
  {
    var s := Pattern(name) + rest;
    if Pattern(key) <= s {
      var x := s[|Pattern(key)|..];
      assert s == Pattern(key) + x;
      assert key + "}" + ("}" + x) == s[2..] == name + "}" + ("}" + rest);
      NamesHaveNoBraces(name);
      SameUpToBrace(key, "}" + x, name, "}" + rest);
    }
  }

  lemma {:induction false} HoleTail(name: string, rest: string)
    requires IsName(name)
    ensures NoDoubleBrace("{" + name + "}}", rest)
  {
    var tail := "{" + name + "}}";
    NamesHaveNoBraces(name);
    assert forall k :: 0 <= k < |name| ==> tail[k + 1] == name[k];
    assert forall k :: |name| < k < |tail| ==> tail[k] == '}';
    assert (tail + rest)[1] == name[0];
  }

  lemma {:induction false} ReplacePastHole(name: string, rest: string, key: string, val: string)
    requires '}' !in key && IsName(name)
    ensures Replace(Pattern(name) + rest, Pattern(key), val)
         == (if name == key then val else Pattern(name)) + Replace(rest, Pattern(key), val)
  {
    var s, pat := Pattern(name) + rest, Pattern(key);
    if name == key {
      assert pat <= s && s[|pat|..] == rest;
    } else {
      PatternsDiffer(key, name, rest);
      var tail := "{" + name + "}}";
      assert s[0] == '{' && s[1..] == tail + rest && ['{'] + tail == Pattern(name);
      HoleTail(name, rest);
      NoDoubleBraceNoStart(tail, rest, key);
      ReplacePast(tail, rest, pat, val);
      assert ['{'] + (tail + Replace(rest, pat, val)) == Pattern(name) + Replace(rest, pat, val);
    }
  }

  // ----- the simultaneous substitution -----

  /** The meaning of a template: every placeholder with a value is replaced, at once. */
  function Substitute(segs: seq<Segment>, m: map<string, string>): seq<Segment> {
    if segs == [] then []
    else [if segs[0].Hole? && segs[0].name in m then Lit(m[segs[0].name]) else segs[0]] + Substitute(segs[1..], m)
  }

  lemma {:induction false} SubstituteNothing(segs: seq<Segment>)
    ensures Substitute(segs, map[]) == segs
  {
    if segs == [] {
    } else {
      SubstituteNothing(segs[1..]);
    }
  }

  /** What the first segment and the others contribute. */
  lemma {:induction false} RenderSubstitute(segs: seq<Segment>, m: map<string, string>)
    requires segs != []
    ensures Render(segs) == Text(segs[0]) + Render(segs[1..])
    ensures Render(Substitute(segs, m))
         == (if segs[0].Hole? && segs[0].name in m then m[segs[0].name] else Text(segs[0]))
            + Render(Substitute(segs[1..], m))
  {
    assert Substitute(segs, m)[1..] == Substitute(segs[1..], m);
  }

  ghost predicate StartsWithBrace(s: string) { s != "" && s[0] == '{' }

  lemma {:induction false} SubstituteKeepsStart(segs: seq<Segment>, m: map<string, string>)
    ensures StartsWithBrace(Render(Substitute(segs, m))) ==> StartsWithBrace(Render(segs))
  {
    if segs == [] {
    } else {
      hide Render, Substitute;
      RenderSubstitute(segs, m);
      SubstituteKeepsStart(segs[1..], m);
    }
  }

  lemma {:induction false} NoDoubleBraceBefore(t: string, rest: string, rest': string)
    requires NoDoubleBrace(t, rest) && (StartsWithBrace(rest') ==> StartsWithBrace(rest))
    ensures NoDoubleBrace(t, rest')
  {
    forall i | 0 <= i < |t| && t[i] == '{' && i + 1 < |t + rest'| ensures (t + rest')[i + 1] != '{' {
      if i + 1 < |t| {
        assert (t + rest)[i + 1] == t[i + 1];
      } else if rest != "" {
        assert (t + rest)[i + 1] == rest[0];
      }
    }
  }

  /** The values are filled in, and no occurrence of the pattern begins in one of them. */
  ghost predicate ValuesMiss(segs: seq<Segment>, m: map<string, string>, pat: string) {
    segs == [] ||
    (&& (segs[0].Hole? && segs[0].name in m ==>
           NoStartIn(m[segs[0].name], Render(Substitute(segs[1..], m)), pat))
     && ValuesMiss(segs[1..], m, pat))
  }

  /** One more key: the text replacement fills exactly the placeholders of that name. */
  lemma {:induction false} ReplaceFills(segs: seq<Segment>, m: map<string, string>, key: string, val: string)
    requires Clean(segs) && '}' !in key && key !in m && ValuesMiss(segs, m, Pattern(key))
    ensures Replace(Render(Substitute(segs, m)), Pattern(key), val) == Render(Substitute(segs, m[key := val]))
  {
    if segs == [] {
    } else {
      var first, rest := segs[0], Render(Substitute(segs[1..], m));
      ReplaceFills(segs[1..], m, key, val);
      SubstituteKeepsStart(segs[1..], m);
      RenderSubstitute(segs, m);
      RenderSubstitute(segs, m[key := val]);
      hide Render, Substitute, Replace, Pattern, ValuesMiss;
      if first.Lit? {
        NoDoubleBraceBefore(first.text, Render(segs[1..]), rest);
        NoDoubleBraceNoStart(first.text, rest, key);
        ReplacePast(first.text, rest, Pattern(key), val);
      } else if first.name in m {
        ReplacePast(m[first.name], rest, Pattern(key), val);
      } else {
        ReplacePastHole(first.name, rest, key, val);
      }
    }
  }

  // ----- all keys: one by one, or at once -----

  /** A dictionary in iteration order. */
  type Replacements = seq<(string, string)>

  ghost predicate DistinctKeys(kvs: Replacements) {
    forall i, j :: 0 <= i < j < |kvs| ==> kvs[i].0 != kvs[j].0
  }

  /** No key can end a placeholder early. */
  ghost predicate BraceFreeKeys(kvs: Replacements) { forall i :: 0 <= i < |kvs| ==> '}' !in kvs[i].0 }

  ghost predicate NameKeys(kvs: Replacements) { forall i :: 0 <= i < |kvs| ==> IsName(kvs[i].0) }

  /** Replacing key by key, in order. */
  function ReplaceAll(template: string, kvs: Replacements, exclude: set<string>): string {
    if kvs == [] then template
    else
      var before, last := ReplaceAll(template, kvs[..|kvs| - 1], exclude), kvs[|kvs| - 1];
      if last.0 in exclude then before else Replace(before, Pattern(last.0), last.1)
  }

  /** The dictionary as a map, without the excluded keys. */
  function ToMap(kvs: Replacements, exclude: set<string>): map<string, string> {
    if kvs == [] then map[]
    else
      var m, last := ToMap(kvs[..|kvs| - 1], exclude), kvs[|kvs| - 1];
      if last.0 in exclude then m else m[last.0 := last.1]
  }

  lemma {:induction false} ToMapIsLookup(kvs: Replacements, exclude: set<string>)
    requires DistinctKeys(kvs)
    ensures forall k, v ::
              (k in ToMap(kvs, exclude) && ToMap(kvs, exclude)[k] == v) <==> ((k, v) in kvs && k !in exclude)
    ensures forall k :: k in ToMap(kvs, exclude) ==> (k, ToMap(kvs, exclude)[k]) in kvs
  {
    if kvs == [] {
    } else {
      var init, last := kvs[..|kvs| - 1], kvs[|kvs| - 1];
      assert kvs == init + [last];
      ToMapIsLookup(init, exclude);
      assert forall v :: (last.0, v) !in init;
    }
  }

  lemma {:induction false} NewKey(kvs: Replacements, exclude: set<string>)
    requires kvs != [] && DistinctKeys(kvs)
    ensures kvs[|kvs| - 1].0 !in ToMap(kvs[..|kvs| - 1], exclude)
  {
    var init, k := kvs[..|kvs| - 1], kvs[|kvs| - 1].0;
    ToMapIsLookup(init, exclude);
    assert forall v :: (k, v) !in init;
  }

  /** When its turn comes, no key finds its placeholder beginning in a value filled in
      before; or it changes nothing anyway. */
  ghost predicate Undisturbed(segs: seq<Segment>, kvs: Replacements, exclude: set<string>) {
    forall n :: 0 <= n < |kvs| && kvs[n].0 !in exclude ==>
      kvs[n].1 == Pattern(kvs[n].0) || ValuesMiss(segs, ToMap(kvs[..n], exclude), Pattern(kvs[n].0))
  }

  lemma {:induction false} ReplaceByItself(s: string, pat: string)
    requires pat != ""
    ensures Replace(s, pat, pat) == s
    decreases |s|
  {
    if s == "" {
    } else if pat <= s {
      ReplaceByItself(s[|pat|..], pat);
      assert s == pat + s[|pat|..];
    } else {
      ReplaceByItself(s[1..], pat);
      assert s == [s[0]] + s[1..];
    }
  }

  lemma {:induction false} SubstituteByItself(segs: seq<Segment>, m: map<string, string>, key: string)
    requires key !in m
    ensures Render(Substitute(segs, m[key := Pattern(key)])) == Render(Substitute(segs, m))
  {
    if segs == [] {
    } else {
      SubstituteByItself(segs[1..], m, key);
      hide Render, Substitute;
      RenderSubstitute(segs, m);
      RenderSubstitute(segs, m[key := Pattern(key)]);
    }
  }

  lemma {:induction false} UndisturbedIsSimultaneous(segs: seq<Segment>, kvs: Replacements, exclude: set<string>)
    requires Clean(segs) && BraceFreeKeys(kvs) && DistinctKeys(kvs) && Undisturbed(segs, kvs, exclude)
    ensures ReplaceAll(Render(segs), kvs, exclude) == Render(Substitute(segs, ToMap(kvs, exclude)))
  {
    if kvs == [] {
      SubstituteNothing(segs);
    } else {
      var init, last := kvs[..|kvs| - 1], kvs[|kvs| - 1];
      assert forall n :: 0 <= n < |init| ==> init[..n] == kvs[..n] && init[n] == kvs[n];
      UndisturbedIsSimultaneous(segs, init, exclude);
      hide Render, Substitute, Replace, Clean, ValuesMiss;
      if last.0 !in exclude {
        var m := ToMap(init, exclude);
        NewKey(kvs, exclude);
        if last.1 == Pattern(last.0) {
          ReplaceByItself(Render(Substitute(segs, m)), last.1);
          SubstituteByItself(segs, m, last.0);
        } else {
          ReplaceFills(segs, m, last.0, last.1);
        }
      }
    }
  }

  // ----- the condition on the values alone -----

  /** At p, the value and the pattern agree as far as both go. */
  predicate Meets(val: string, pat: string, p: nat)
    requires p < |val|
  {
    if |val| - p >= |pat| then val[p..p + |pat|] == pat else val[p..] == pat[..|val| - p]
  }

  /** The value contains neither the pattern nor, at its end, the beginning of it. */
  ghost predicate Misses(val: string, pat: string) {
    forall p :: 0 <= p < |val| ==> !Meets(val, pat, p)
  }

  lemma {:induction false} OccurrenceMeets(val: string, rest: string, pat: string, p: nat)
    requires p < |val| && OccursAt(pat, val + rest, p)
    ensures Meets(val, pat, p)
  {
    var t := (val + rest)[p..p + |pat|];
    if |val| - p >= |pat| {
      assert val[p..p + |pat|] == t;
    } else {
      assert val[p..] == t[..|val| - p];
    }
  }

  lemma {:induction false} MissesNoStart(val: string, rest: string, pat: string)
    requires Misses(val, pat)
    ensures NoStartIn(val, rest, pat)
  {
    forall p | 0 <= p < |val| && OccursAt(pat, val + rest, p) ensures Meets(val, pat, p) {
      OccurrenceMeets(val, rest, pat, p);
    }
  }

  lemma {:induction false} AllValuesMiss(segs: seq<Segment>, m: map<string, string>, pat: string)
    requires forall k :: k in m ==> Misses(m[k], pat)
    ensures ValuesMiss(segs, m, pat)
  {
    if segs == [] {
    } else {
      AllValuesMiss(segs[1..], m, pat);
      hide Render, Substitute;
      if segs[0].Hole? && segs[0].name in m {
        MissesNoStart(m[segs[0].name], Render(Substitute(segs[1..], m)), pat);
      }
    }
  }

  /** Entry i does not disturb entry j. */
  ghost predicate Compatible(a: (string, string), b: (string, string)) {
    b.1 == Pattern(b.0) || Misses(a.1, Pattern(b.0))
  }

  /** No entry disturbs a later one. */
  ghost predicate Ordered(kvs: Replacements, exclude: set<string>) {
    forall i, j :: 0 <= i < j < |kvs| && kvs[i].0 !in exclude && kvs[j].0 !in exclude ==> Compatible(kvs[i], kvs[j])
  }

  /** No entry disturbs another one. */
  ghost predicate Independent(kvs: Replacements, exclude: set<string>) {
    forall i, j :: 0 <= i < |kvs| && 0 <= j < |kvs| && i != j && kvs[i].0 !in exclude && kvs[j].0 !in exclude ==>
      Compatible(kvs[i], kvs[j])
  }

  lemma {:induction false} OrderedIsUndisturbed(segs: seq<Segment>, kvs: Replacements, exclude: set<string>)
    requires DistinctKeys(kvs) && Ordered(kvs, exclude)
    ensures Undisturbed(segs, kvs, exclude)
  {
    forall n | 0 <= n < |kvs| && kvs[n].0 !in exclude && kvs[n].1 != Pattern(kvs[n].0)
      ensures ValuesMiss(segs, ToMap(kvs[..n], exclude), Pattern(kvs[n].0))
    {
      var m := ToMap(kvs[..n], exclude);
      ToMapIsLookup(kvs[..n], exclude);
      forall k | k in m ensures Misses(m[k], Pattern(kvs[n].0)) {
        var i :| 0 <= i < n && kvs[..n][i] == (k, m[k]);
        assert Compatible(kvs[i], kvs[n]);
      }
      AllValuesMiss(segs, m, Pattern(kvs[n].0));
    }
  }

  /** Replacing key by key is the simultaneous substitution, for every clean template, if
      no entry disturbs a later one. */
  lemma {:induction false} KeyByKeyIsSimultaneous(segs: seq<Segment>, kvs: Replacements, exclude: set<string>)
    requires Clean(segs) && BraceFreeKeys(kvs) && DistinctKeys(kvs) && Ordered(kvs, exclude)
    ensures ReplaceAll(Render(segs), kvs, exclude) == Render(Substitute(segs, ToMap(kvs, exclude)))
  {
    OrderedIsUndisturbed(segs, kvs, exclude);
    UndisturbedIsSimultaneous(segs, kvs, exclude);
  }

  /** `replace_template`. */
  method ReplaceTemplate(template: string, replacements: Replacements, exclude: set<string>) returns (result: string)
    ensures result == ReplaceAll(template, replacements, exclude)
    ensures (forall i :: 0 <= i < |replacements| ==> replacements[i].0 in exclude) ==> result == template
    ensures forall segs {:trigger Render(segs)} ::
              Clean(segs) && Render(segs) == template && BraceFreeKeys(replacements) && DistinctKeys(replacements)
              && Ordered(replacements, exclude)
              ==> result == Render(Substitute(segs, ToMap(replacements, exclude)))
  {
    result := template;
    for i := 0 to |replacements|
      invariant result == ReplaceAll(template, replacements[..i], exclude)
      invariant (forall j :: 0 <= j < i ==> replacements[j].0 in exclude) ==> result == template
    {
      assert replacements[..i + 1][..i] == replacements[..i];
      if replacements[i].0 !in exclude {
        result := Replace(result, Pattern(replacements[i].0), replacements[i].1);
      }
    }
    assert replacements[..|replacements|] == replacements;
    forall segs {:trigger Render(segs)} |
      Clean(segs) && Render(segs) == template && BraceFreeKeys(replacements) && DistinctKeys(replacements)
      && Ordered(replacements, exclude)
      ensures result == Render(Substitute(segs, ToMap(replacements, exclude)))
    {
      KeyByKeyIsSimultaneous(segs, replacements, exclude);
    }
  }

  // ----- the order of the keys -----

  lemma {:induction false} SameEntriesSameMap(kvs: Replacements, kvs': Replacements, exclude: set<string>)
    requires DistinctKeys(kvs) && DistinctKeys(kvs')
    requires (forall i :: 0 <= i < |kvs| ==> kvs[i] in kvs') && (forall i :: 0 <= i < |kvs'| ==> kvs'[i] in kvs)
    ensures ToMap(kvs, exclude) == ToMap(kvs', exclude)
  {
    ToMapIsLookup(kvs, exclude);
    ToMapIsLookup(kvs', exclude);
    var m, m' := ToMap(kvs, exclude), ToMap(kvs', exclude);
    forall k | k in m ensures k in m' && m[k] == m'[k] { assert (k, m[k]) in kvs'; }
    forall k | k in m' ensures k in m { assert (k, m'[k]) in kvs; }
  }

  lemma {:induction false} CountAtMostOne(kvs: Replacements, c: nat)
    requires DistinctKeys(kvs) && c < |kvs|
    ensures multiset(kvs)[kvs[c]] == 1
  {
    assert kvs == kvs[..c] + [kvs[c]] + kvs[c + 1..];
  }

  lemma {:induction false} CountTwo(kvs: Replacements, a: nat, b: nat)
    requires a < b < |kvs| && kvs[a] == kvs[b]
    ensures multiset(kvs)[kvs[a]] >= 2
  {
    assert kvs == kvs[..b] + [kvs[b]] + kvs[b + 1..];
    assert kvs[..b][a] in kvs[..b];
  }

  /** Another order of the same dictionary. */
  ghost predicate Reorders(kvs': Replacements, kvs: Replacements) { multiset(kvs') == multiset(kvs) }

  /** Its entries are the same, at other indices. */
  lemma {:induction false} ReorderedEntries(kvs: Replacements, kvs': Replacements)
    requires DistinctKeys(kvs) && Reorders(kvs', kvs)
    ensures DistinctKeys(kvs')
    ensures (forall i :: 0 <= i < |kvs| ==> kvs[i] in kvs') && (forall i :: 0 <= i < |kvs'| ==> kvs'[i] in kvs)
  {
    forall i | 0 <= i < |kvs'| ensures kvs'[i] in kvs { assert kvs'[i] in multiset(kvs'); }
    forall i | 0 <= i < |kvs| ensures kvs[i] in kvs' { assert kvs[i] in multiset(kvs); }
    forall i, j | 0 <= i < j < |kvs'| ensures kvs'[i].0 != kvs'[j].0 {
      var c :| 0 <= c < |kvs| && kvs[c] == kvs'[i];
      var d :| 0 <= d < |kvs| && kvs[d] == kvs'[j];
      if kvs'[i].0 == kvs'[j].0 {
        assert c == d;
        CountTwo(kvs', i, j);
        CountAtMostOne(kvs, c);
      }
    }
  }

  lemma {:induction false} IndependentIsOrdered(kvs: Replacements, kvs': Replacements, exclude: set<string>)
    requires DistinctKeys(kvs) && Reorders(kvs', kvs) && Independent(kvs, exclude)
    ensures Ordered(kvs', exclude)
  {
    ReorderedEntries(kvs, kvs');
    forall i, j | 0 <= i < j < |kvs'| && kvs'[i].0 !in exclude && kvs'[j].0 !in exclude
      ensures Compatible(kvs'[i], kvs'[j])
    {
      var c :| 0 <= c < |kvs| && kvs[c] == kvs'[i];
      var d :| 0 <= d < |kvs| && kvs[d] == kvs'[j];
      assert c != d;
    }
  }

  /** In whatever order the dictionary is iterated, the text is the simultaneous one. */
  lemma {:induction false} OrderIsIrrelevant(
    segs: seq<Segment>, kvs: Replacements, kvs': Replacements, exclude: set<string>)
    requires Clean(segs) && BraceFreeKeys(kvs) && DistinctKeys(kvs) && Independent(kvs, exclude)
    requires Reorders(kvs', kvs)
    ensures ReplaceAll(Render(segs), kvs', exclude) == Render(Substitute(segs, ToMap(kvs, exclude)))
  {
    ReorderedEntries(kvs, kvs');
    IndependentIsOrdered(kvs, kvs', exclude);
    KeyByKeyIsSimultaneous(segs, kvs', exclude);
    SameEntriesSameMap(kvs, kvs', exclude);
  }

  // ----- and only then -----

  lemma {:induction false} ReplaceLength(s: string, pat: string, val: string)
    requires pat != ""
    ensures |val| <= |pat| ==> |Replace(s, pat, val)| <= |s|
    ensures |val| >= |pat| ==> |Replace(s, pat, val)| >= |s|
    decreases |s|
  {
    if s == "" {
    } else if pat <= s {
      ReplaceLength(s[|pat|..], pat, val);
    } else {
      ReplaceLength(s[1..], pat, val);
    }
  }

  lemma {:induction false} SuffixOccurs(pat: string, s: string, d: nat, p: nat)
    requires d <= p && OccursAt(pat, s, p)
    ensures OccursAt(pat, s[d..], p - d)
  {
    assert s[d..][p - d..p - d + |pat|] == s[p..p + |pat|];
  }

  lemma {:induction false} ReplaceChanges(s: string, pat: string, val: string, p: nat)
    requires pat != "" && val != pat && OccursAt(pat, s, p)
    ensures Replace(s, pat, val) != s
  {
    PrefixOccurs(pat, s);
    if pat <= s {
      var tail := s[|pat|..];
      ReplaceLength(tail, pat, val);
      assert s == pat + tail;
      if |val| == |pat| {
        assert (val + Replace(tail, pat, val))[..|pat|] == val && s[..|pat|] == pat;
      }
    } else {
      SuffixOccurs(pat, s, 1, p);
      ReplaceChanges(s[1..], pat, val, p - 1);
      assert ([s[0]] + Replace(s[1..], pat, val))[1..] == Replace(s[1..], pat, val);
    }
  }

  /** A value that meets a pattern can be continued so that the pattern occurs. */
  function Completion(val: string, pat: string, p: nat): string
    requires p < |val|
  {
    if |val| - p >= |pat| then "" else pat[|val| - p..]
  }

  lemma {:induction false} CompletionCompletes(val: string, pat: string, p: nat)
    requires p < |val| && Meets(val, pat, p)
    ensures OccursAt(pat, val + Completion(val, pat, p), p)
  {
    var s := val + Completion(val, pat, p);
    if |val| - p >= |pat| {
      assert s[p..p + |pat|] == val[p..p + |pat|];
    } else {
      assert s[p..p + |pat|] == val[p..] + pat[|val| - p..];
    }
  }

  lemma {:induction false} CompletionIsClean(name: string, key: string, val: string, p: nat)
    requires IsName(name) && IsName(key) && p < |val|
    ensures Clean([Hole(name), Lit(Completion(val, Pattern(key), p))])
  {
    var rest, pat := Completion(val, Pattern(key), p), Pattern(key);
    NamesHaveNoBraces(key);
    assert forall k :: 0 <= k < |key| ==> pat[k + 2] == key[k];
    assert pat[|key| + 2] == '}' && pat[|key| + 3] == '}';
    assert forall k :: 2 <= k < |pat| ==> pat[k] != '{';
    var segs := [Hole(name), Lit(rest)];
    assert segs[1..] == [Lit(rest)] && [Lit(rest)][1..] == [];
    assert NoDoubleBrace(rest, "") by {
      assert rest + "" == rest;
      forall i | 0 <= i < |rest| ensures rest[i] == pat[|pat| - |rest| + i] {}
    }
    assert Clean([Lit(rest)]);
  }

  lemma {:induction false} RenderHoleAndText(name: string, text: string, m: map<string, string>)
    ensures Render([Hole(name), Lit(text)]) == Pattern(name) + text
    ensures Render(Substitute([Hole(name), Lit(text)], m)) == (if name in m then m[name] else Pattern(name)) + text
  {
    var segs := [Hole(name), Lit(text)];
    assert segs[1..] == [Lit(text)] && [Lit(text)][1..] == [];
    assert Render([Lit(text)]) == text + "" == text;
    assert Substitute([Lit(text)], m) == [Lit(text)];
    RenderSubstitute(segs, m);
  }

  /** Entries i and j, in this order, at the end. */
  lemma {:induction false} MoveToEnd(kvs: Replacements, i: nat, j: nat) returns (others: Replacements)
    requires i < |kvs| && j < |kvs| && i != j
    ensures Reorders(others + [kvs[i], kvs[j]], kvs)
    ensures forall n :: 0 <= n < |others| ==> others[n] in kvs
  {
    var a, b := if i < j then i else j, if i < j then j else i;
    var x, y, z := kvs[..a], kvs[a + 1..b], kvs[b + 1..];
    others := x + y + z;
    SplitAtTwo(kvs, a, b);
    SameEntries(x, y, z, kvs[a], kvs[b]);
    forall n | 0 <= n < |others| ensures others[n] in kvs {
      assert others[n] in x || others[n] in y || others[n] in z;
    }
  }

  lemma {:induction false} SplitAtTwo<T>(s: seq<T>, a: nat, b: nat)
    requires a < b < |s|
    ensures s == s[..a] + [s[a]] + s[a + 1..b] + [s[b]] + s[b + 1..]
  {
  }

  lemma {:induction false} SameEntries<T>(x: seq<T>, y: seq<T>, z: seq<T>, a: T, b: T)
    ensures multiset(x + y + z + [a, b]) == multiset(x + [a] + y + [b] + z)
    ensures multiset(x + y + z + [b, a]) == multiset(x + [a] + y + [b] + z)
  {
    assert [a, b] == [a] + [b] && [b, a] == [b] + [a];
  }

  /** A template in which an entry that disturbs another one shows, in the order in which
      these two come last. */
  lemma {:induction false} DisturbedTemplate(kvs: Replacements, exclude: set<string>, i: nat, j: nat)
    returns (segs: seq<Segment>, kvs': Replacements)
    requires DistinctKeys(kvs) && NameKeys(kvs)
    requires i < |kvs| && j < |kvs| && i != j && kvs[i].0 !in exclude && kvs[j].0 !in exclude
    requires !Compatible(kvs[i], kvs[j])
    ensures Clean(segs) && Reorders(kvs', kvs)
    ensures ReplaceAll(Render(segs), kvs', exclude) != Render(Substitute(segs, ToMap(kvs, exclude)))
  {
    var a, b := kvs[i], kvs[j];
    var pat := Pattern(b.0);
    var p :| 0 <= p < |a.1| && Meets(a.1, pat, p);
    var text := Completion(a.1, pat, p);
    CompletionCompletes(a.1, pat, p);
    CompletionIsClean(a.0, b.0, a.1, p);
    segs := [Hole(a.0), Lit(text)];
    var others := MoveToEnd(kvs, i, j);
    kvs' := others + [a, b];
    ReorderedEntries(kvs, kvs');
    assert forall n :: 0 <= n <= |others| ==> (others + [a])[n] == kvs'[n];
    FillLast(others, a, b, text, exclude);
    ToMapIsLookup(kvs, exclude);
    assert a in kvs;
    RenderHoleAndText(a.0, text, ToMap(kvs, exclude));
    ReplaceChanges(a.1 + text, pat, b.1, p);
  }

  lemma {:induction false} FillLast(
    others: Replacements, a: (string, string), b: (string, string), text: string, exclude: set<string>)
    requires DistinctKeys(others + [a]) && forall n :: 0 <= n < |others| ==> IsName(others[n].0)
    requires IsName(a.0) && a.0 !in exclude && b.0 !in exclude && Clean([Hole(a.0), Lit(text)])
    ensures ReplaceAll(Render([Hole(a.0), Lit(text)]), others + [a, b], exclude)
         == Replace(a.1 + text, Pattern(b.0), b.1)
  {
    hide Render, Replace, Clean, Pattern;
    assert (others + [a, b])[..|others| + 1] == others + [a];
    FillOne(others + [a], text, exclude);
  }

  lemma {:induction false} FillOne(kvs: Replacements, text: string, exclude: set<string>)
    requires kvs != [] && DistinctKeys(kvs) && NameKeys(kvs)
    requires var a := kvs[|kvs| - 1]; a.0 !in exclude && Clean([Hole(a.0), Lit(text)])
    ensures var a := kvs[|kvs| - 1]; ReplaceAll(Render([Hole(a.0), Lit(text)]), kvs, exclude) == a.1 + text
  {
    hide Render, Substitute, Replace, ReplaceAll, Clean, ValuesMiss, Pattern, ToMap;
    var a := kvs[|kvs| - 1];
    var segs := [Hole(a.0), Lit(text)];
    forall n | 0 <= n < |kvs| ensures ValuesMiss(segs, ToMap(kvs[..n], exclude), Pattern(kvs[n].0)) {
      AbsentKey(kvs[..n], a.0, exclude);
      HoleMisses(a.0, text, ToMap(kvs[..n], exclude), Pattern(kvs[n].0));
    }
    forall n | 0 <= n < |kvs| ensures '}' !in kvs[n].0 { NamesHaveNoBraces(kvs[n].0); }
    UndisturbedIsSimultaneous(segs, kvs, exclude);
    ToMapIsLookup(kvs, exclude);
    assert a in kvs;
    RenderHoleAndText(a.0, text, ToMap(kvs, exclude));
  }

  lemma {:induction false} AbsentKey(kvs: Replacements, key: string, exclude: set<string>)
    requires forall n :: 0 <= n < |kvs| ==> kvs[n].0 != key
    ensures key !in ToMap(kvs, exclude)
  {
    if kvs == [] {
    } else {
      AbsentKey(kvs[..|kvs| - 1], key, exclude);
    }
  }

  lemma {:induction false} HoleMisses(name: string, text: string, m: map<string, string>, pat: string)
    requires name !in m
    ensures ValuesMiss([Hole(name), Lit(text)], m, pat)
  {
    var segs := [Hole(name), Lit(text)];
    assert segs[1..] == [Lit(text)] && [Lit(text)][1..] == [];
    assert ValuesMiss([Lit(text)], m, pat);
  }

  /** Exactly when replacing key by key is simultaneous substitution: for every clean
      template and in every order of the dictionary, if and only if no entry disturbs
      another one.  The keys are placeholder names. */
  lemma {:induction false} SimultaneousIffIndependent(kvs: Replacements, exclude: set<string>)
    requires DistinctKeys(kvs) && NameKeys(kvs)
    ensures (forall segs, kvs' :: Clean(segs) && Reorders(kvs', kvs) ==>
               ReplaceAll(Render(segs), kvs', exclude) == Render(Substitute(segs, ToMap(kvs, exclude))))
       <==> Independent(kvs, exclude)
  {
    forall n | 0 <= n < |kvs| ensures '}' !in kvs[n].0 { NamesHaveNoBraces(kvs[n].0); }
    if Independent(kvs, exclude) {
      forall segs, kvs' | Clean(segs) && Reorders(kvs', kvs)
        ensures ReplaceAll(Render(segs), kvs', exclude) == Render(Substitute(segs, ToMap(kvs, exclude)))
      {
        OrderIsIrrelevant(segs, kvs, kvs', exclude);
      }
    } else {
      var i, j :| 0 <= i < |kvs| && 0 <= j < |kvs| && i != j && kvs[i].0 !in exclude && kvs[j].0 !in exclude
                  && !Compatible(kvs[i], kvs[j]);
      var segs, kvs' := DisturbedTemplate(kvs, exclude, i, j);
    }
  }

  // ----- extraction -----

  function NameRun(s: string): (n: nat)
    ensures n <= |s| && forall i :: 0 <= i < n ==> IsNameChar(s[i])
  {
    if s != "" && IsNameChar(s[0]) then 1 + NameRun(s[1..]) else 0
  }

  /** `\{\{([a-zA-Z0-9_-]+)\}\}` matched at the start of s. */
  function Match(s: string): Option<string> {
    if "{{" <= s then
      var n := NameRun(s[2..]);
      if n > 0 && "}}" <= s[2 + n..] then Some(s[2..2 + n]) else None
    else None
  }

  /** The names `re.findall` returns for the pattern. */
  function Extract(s: string): set<string>
    decreases |s|
  {
    if s == "" then {}
    else match Match(s)
      case Some(name) => {name} + Extract(s[|name| + 4..])
      case None => Extract(s[1..])
  }

  function HoleNames(segs: seq<Segment>): set<string> {
    if segs == [] then {}
    else (if segs[0].Hole? then {segs[0].name} else {}) + HoleNames(segs[1..])
  }

  lemma {:induction false} NameRunOfName(name: string, rest: string)
    requires forall i :: 0 <= i < |name| ==> IsNameChar(name[i])
    requires rest == "" || !IsNameChar(rest[0])
    ensures NameRun(name + rest) == |name|
  {
    if name == "" {
      assert name + rest == rest;
    } else {
      assert (name + rest)[0] == name[0] && (name + rest)[1..] == name[1..] + rest;
      NameRunOfName(name[1..], rest);
    }
  }

  lemma {:induction false} ExtractPastHole(name: string, rest: string)
    requires IsName(name)
    ensures Extract(Pattern(name) + rest) == {name} + Extract(rest)
  {
    var s, tail := Pattern(name) + rest, "}}" + rest;
    assert s[2..] == name + tail;
    NameRunOfName(name, tail);
    assert s[2 + |name|..] == tail && s[2..2 + |name|] == name && s[|name| + 4..] == rest;
    assert s[..2] == "{{" && tail[..2] == "}}";
    assert Match(s) == Some(name);
  }

  lemma {:induction false} MatchIsPattern(s: string)
    ensures Match(s).Some? ==> IsName(Match(s).value) && OccursAt(Pattern(Match(s).value), s, 0)
  {
    if Match(s).Some? {
      var name := Match(s).value;
      assert s[..|name| + 4] == s[..2] + s[2..2 + |name|] + s[2 + |name|..][..2];
    }
  }

  /** No placeholder at all begins in `text`. */
  ghost predicate NoPlaceholderIn(text: string, rest: string) {
    forall n :: IsName(n) ==> NoStartIn(text, rest, Pattern(n))
  }

  lemma {:induction false} MatchIsAPlaceholder(text: string, rest: string)
    requires text != "" && Match(text + rest).Some?
    ensures !NoPlaceholderIn(text, rest)
  {
    var name := Match(text + rest).value;
    MatchIsPattern(text + rest);
    assert !NoStartIn(text, rest, Pattern(name));
  }

  lemma {:induction false} ExtractPast(text: string, rest: string)
    requires NoPlaceholderIn(text, rest)
    ensures Extract(text + rest) == Extract(rest)
  {
    var s := text + rest;
    if text == "" {
      assert s == rest;
    } else {
      var tail := text[1..];
      assert s[1..] == tail + rest;
      if Match(s).Some? {
        MatchIsAPlaceholder(text, rest);
      }
      forall n, p | IsName(n) && 0 <= p < |tail| ensures !OccursAt(Pattern(n), tail + rest, p) {
        assert NoStartIn(text, rest, Pattern(n)) && !OccursAt(Pattern(n), s, p + 1);
        assert s[p + 1..] == (tail + rest)[p..];
      }
      ExtractPast(tail, rest);
    }
  }

  lemma {:induction false} NoDoubleBraceNoPlaceholder(text: string, rest: string)
    requires NoDoubleBrace(text, rest)
    ensures NoPlaceholderIn(text, rest)
  {
    forall n | IsName(n) ensures NoStartIn(text, rest, Pattern(n)) {
      NoDoubleBraceNoStart(text, rest, n);
    }
  }

  /** A value that neither contains a placeholder nor ends in the beginning of one. */
  ghost predicate Inert(val: string) { forall n :: IsName(n) ==> Misses(val, Pattern(n)) }

  lemma {:induction false} InertNoPlaceholder(val: string, rest: string)
    requires Inert(val)
    ensures NoPlaceholderIn(val, rest)
  {
    forall n | IsName(n) ensures NoStartIn(val, rest, Pattern(n)) {
      MissesNoStart(val, rest, Pattern(n));
    }
  }

  /** For instance every value in which each opening brace is followed by a character
      that is not one, such as a JSON object. */
  lemma {:induction false} QuietIsInert(val: string)
    requires forall i :: 0 <= i < |val| && val[i] == '{' ==> i + 1 < |val| && val[i + 1] != '{'
    ensures Inert(val)
  {
    forall n, p | IsName(n) && 0 <= p < |val| ensures !Meets(val, Pattern(n), p) {
      QuietDoesNotMeet(val, n, p);
    }
    assert forall n :: IsName(n) ==> Misses(val, Pattern(n));
  }

  lemma {:induction false} QuietDoesNotMeet(val: string, name: string, p: nat)
    requires p < |val| && (val[p] == '{' ==> p + 1 < |val| && val[p + 1] != '{')
    ensures !Meets(val, Pattern(name), p)
  {
    if Meets(val, Pattern(name), p) {
      MeetingStartsWithBraces(val, name, p);
    }
  }

  lemma {:induction false} MeetingStartsWithBraces(val: string, name: string, p: nat)
    requires p < |val| && Meets(val, Pattern(name), p)
    ensures val[p] == '{' && (p + 1 < |val| ==> val[p + 1] == '{')
  {
    var pat := Pattern(name);
    var k := if |val| - p >= |pat| then |pat| else |val| - p;
    assert val[p..p + k] == pat[..k];
    assert val[p] == val[p..p + k][0] == pat[0];
    if p + 1 < |val| {
      assert val[p + 1] == val[p..p + k][1] == pat[1];
    }
  }

  ghost predicate AllInert(m: map<string, string>) { forall k :: k in m ==> Inert(m[k]) }

  /** What is extracted after filling in: the placeholders without a value. */
  lemma {:induction false} ExtractSubstitute(segs: seq<Segment>, m: map<string, string>)
    requires Clean(segs) && AllInert(m)
    ensures Extract(Render(Substitute(segs, m))) == HoleNames(segs) - m.Keys
  {
    if segs == [] {
    } else {
      var first, rest := segs[0], Render(Substitute(segs[1..], m));
      ExtractSubstitute(segs[1..], m);
      SubstituteKeepsStart(segs[1..], m);
      RenderSubstitute(segs, m);
      hide Render, Substitute, Extract, Pattern, Inert;
      if first.Lit? {
        NoDoubleBraceBefore(first.text, Render(segs[1..]), rest);
        NoDoubleBraceNoPlaceholder(first.text, rest);
        ExtractPast(first.text, rest);
      } else if first.name in m {
        InertNoPlaceholder(m[first.name], rest);
        ExtractPast(m[first.name], rest);
      } else {
        ExtractPastHole(first.name, rest);
      }
    }
  }

  /** Extraction finds exactly the placeholders of a clean template. */
  lemma {:induction false} ExtractFindsHoles(segs: seq<Segment>)
    requires Clean(segs)
    ensures Extract(Render(segs)) == HoleNames(segs)
  {
    SubstituteNothing(segs);
    ExtractSubstitute(segs, map[]);
  }

  /** No value that is filled in contributes a placeholder. */
  ghost predicate InertValues(kvs: Replacements, exclude: set<string>) {
    forall i :: 0 <= i < |kvs| && kvs[i].0 !in exclude ==> Inert(kvs[i].1)
  }

  /** The keys that are replaced. */
  function Keys(kvs: Replacements, exclude: set<string>): set<string> {
    set i | 0 <= i < |kvs| && kvs[i].0 !in exclude :: kvs[i].0
  }

  /** After the replacement the placeholders left are those of the template without the
      keys, if no value contributes one. */
  lemma {:induction false} PlaceholdersLeft(segs: seq<Segment>, kvs: Replacements, exclude: set<string>)
    requires Clean(segs) && DistinctKeys(kvs) && NameKeys(kvs) && InertValues(kvs, exclude)
    ensures Extract(ReplaceAll(Render(segs), kvs, exclude)) == Extract(Render(segs)) - Keys(kvs, exclude)
  {
    forall n | 0 <= n < |kvs| ensures '}' !in kvs[n].0 { NamesHaveNoBraces(kvs[n].0); }
    hide Pattern, Render, Substitute, Extract, ReplaceAll, Clean;
    KeyByKeyIsSimultaneous(segs, kvs, exclude);
    MapKeys(kvs, exclude);
    ExtractFindsHoles(segs);
    ExtractSubstitute(segs, ToMap(kvs, exclude));
  }

  lemma {:induction false} MapKeys(kvs: Replacements, exclude: set<string>)
    requires DistinctKeys(kvs)
    ensures ToMap(kvs, exclude).Keys == Keys(kvs, exclude)
    ensures InertValues(kvs, exclude) ==> AllInert(ToMap(kvs, exclude))
  {
    var m, keys := ToMap(kvs, exclude), Keys(kvs, exclude);
    ToMapIsLookup(kvs, exclude);
    forall k ensures k in keys <==> k in m {
      if k in m {
        assert (k, m[k]) in kvs;
      }
      if k in keys {
        var i :| 0 <= i < |kvs| && kvs[i].0 !in exclude && kvs[i].0 == k;
        assert (k, kvs[i].1) in kvs;
      }
    }
    forall k | InertValues(kvs, exclude) && k in m ensures Inert(m[k]) {
      assert (k, m[k]) in kvs;
    }
  }

  /** A placeholder that occurs in a text is extracted from it. */
  lemma {:induction false} OccurringIsExtracted(name: string, s: string, p: nat)
    requires IsName(name) && OccursAt(Pattern(name), s, p)
    ensures name in Extract(s)
    decreases |s|
  {
    hide Pattern, Match;
    OccurrenceStartsWithBraces(name, s, p);
    if p == 0 {
      var rest := s[|Pattern(name)|..];
      assert s == Pattern(name) + rest;
      ExtractPastHole(name, rest);
    } else if Match(s).Some? {
      var n := |Match(s).value| + 4;
      MatchIsPattern(s);
      BracesOfPattern(Match(s).value, s, p);
      SuffixOccurs(Pattern(name), s, n, p);
      OccurringIsExtracted(name, s[n..], p - n);
    } else {
      SuffixOccurs(Pattern(name), s, 1, p);
      OccurringIsExtracted(name, s[1..], p - 1);
    }
  }

  /** Inside a placeholder no other one begins. */
  lemma {:induction false} BracesOfPattern(name: string, s: string, p: nat)
    requires IsName(name) && OccursAt(Pattern(name), s, 0)
    requires 0 < p && p + 1 < |s| && s[p] == '{' && s[p + 1] == '{'
    ensures p >= |name| + 4
  {
    forall k | 2 <= k < |name| + 4 ensures s[k] != '{' {
      InsidePattern(name, s, k);
    }
  }

  lemma {:induction false} InsidePattern(name: string, s: string, k: nat)
    requires IsName(name) && OccursAt(Pattern(name), s, 0) && 2 <= k < |name| + 4
    ensures s[k] != '{'
  {
    NamesHaveNoBraces(name);
    assert s[k] == s[0..|Pattern(name)|][k] == Pattern(name)[k];
    if k < |name| + 2 {
      assert Pattern(name)[k] == name[k - 2];
    }
  }

  lemma {:induction false} ExtractedOccurs(name: string, s: string)
    requires name in Extract(s)
    ensures IsName(name) && Occurs(Pattern(name), s)
    decreases |s|
  {
    hide Match, IsName;
    MatchIsPattern(s);
    if Match(s) == Some(name) {
    } else {
      var d := if Match(s).Some? then |Match(s).value| + 4 else 1;
      ExtractedOccurs(name, s[d..]);
      var p :| OccursAt(Pattern(name), s[d..], p);
      assert s[d + p..d + p + |Pattern(name)|] == s[d..][p..p + |Pattern(name)|];
      assert OccursAt(Pattern(name), s, d + p);
    }
  }

  /** The regular expression's [a-zA-Z0-9_-]+. */
  ghost predicate InClass(name: string) {
    name != "" && forall k :: 0 <= k < |name| ==>
      var c := name[k];
      'a' <= c <= 'z' || 'A' <= c <= 'Z' || '0' <= c <= '9' || c == '_' || c == '-'
  }

  /** `extract_placeholders`: the names that occur between double braces in a part; a part
      that is not a string is None. */
  method ExtractPlaceholders(parts: seq<Option<string>>) returns (names: set<string>)
    ensures forall n :: n in names <==>
              InClass(n) && exists i :: 0 <= i < |parts| && parts[i].Some? && Occurs("{{" + n + "}}", parts[i].value)
  {
    names := {};
    for i := 0 to |parts|
      invariant forall n :: n in names <==> exists j :: 0 <= j < i && parts[j].Some? && n in Extract(parts[j].value)
    {
      if parts[i].Some? {
        names := names + Extract(parts[i].value);
      }
    }
    forall i, n | 0 <= i < |parts| && parts[i].Some?
      ensures n in Extract(parts[i].value) <==> InClass(n) && Occurs("{{" + n + "}}", parts[i].value)
    {
      ExtractIff(n, parts[i].value);
    }
  }

  /** Whatever the text: a name is extracted if and only if it occurs between double braces. */
  lemma {:induction false} ExtractIff(name: string, s: string)
    ensures name in Extract(s) <==> InClass(name) && Occurs("{{" + name + "}}", s)
  {
    assert InClass(name) <==> IsName(name);
    if name in Extract(s) {
      ExtractedOccurs(name, s);
    }
    if IsName(name) && Occurs(Pattern(name), s) {
      var p :| OccursAt(Pattern(name), s, p);
      OccurringIsExtracted(name, s, p);
    }
  }

  /** Exactly when the placeholders left are the extracted ones minus the keys: for every
      clean template and in every order of the dictionary, if and only if no value that is
      filled in contains a placeholder or ends in the beginning of one. */
  lemma {:induction false} PlaceholdersLeftIff(kvs: Replacements, exclude: set<string>)
    requires DistinctKeys(kvs) && NameKeys(kvs)
    ensures (forall segs, kvs' :: Clean(segs) && Reorders(kvs', kvs) ==>
               Extract(ReplaceAll(Render(segs), kvs', exclude)) == Extract(Render(segs)) - Keys(kvs, exclude))
       <==> InertValues(kvs, exclude)
  {
    if InertValues(kvs, exclude) {
      forall segs, kvs' | Clean(segs) && Reorders(kvs', kvs)
        ensures Extract(ReplaceAll(Render(segs), kvs', exclude)) == Extract(Render(segs)) - Keys(kvs, exclude)
      {
        ReorderedKeys(kvs, kvs', exclude);
        PlaceholdersLeft(segs, kvs', exclude);
      }
    } else {
      var i :| 0 <= i < |kvs| && kvs[i].0 !in exclude && !Inert(kvs[i].1);
      var segs, kvs', name := IntrudingPlaceholder(kvs, exclude, i);
    }
  }

  lemma {:induction false} ReorderedKeys(kvs: Replacements, kvs': Replacements, exclude: set<string>)
    requires DistinctKeys(kvs) && Reorders(kvs', kvs)
    ensures DistinctKeys(kvs') && Keys(kvs', exclude) == Keys(kvs, exclude)
    ensures NameKeys(kvs) ==> NameKeys(kvs')
    ensures InertValues(kvs, exclude) ==> InertValues(kvs', exclude)
  {
    ReorderedEntries(kvs, kvs');
    hide Reorders;
    SameEntriesSameMap(kvs, kvs', exclude);
    MapKeys(kvs, exclude);
    MapKeys(kvs', exclude);
    forall i | 0 <= i < |kvs'| ensures exists c :: 0 <= c < |kvs| && kvs[c] == kvs'[i] { assert kvs'[i] in kvs; }
  }

  /** A template and an order of the keys that leave a placeholder which was not there:
      the entry that brings it in comes last. */
  lemma {:induction false} IntrudingPlaceholder(kvs: Replacements, exclude: set<string>, i: nat)
    returns (segs: seq<Segment>, kvs': Replacements, name: string)
    requires DistinctKeys(kvs) && NameKeys(kvs)
    requires i < |kvs| && kvs[i].0 !in exclude && !Inert(kvs[i].1)
    ensures Clean(segs) && Reorders(kvs', kvs)
    ensures name in Extract(ReplaceAll(Render(segs), kvs', exclude))
    ensures name !in Extract(Render(segs)) - Keys(kvs, exclude)
  {
    var a := kvs[i];
    name :| IsName(name) && !Misses(a.1, Pattern(name));
    var p :| 0 <= p < |a.1| && Meets(a.1, Pattern(name), p);
    var text := Completion(a.1, Pattern(name), p);
    CompletionIsClean(a.0, name, a.1, p);
    CompletionCompletes(a.1, Pattern(name), p);
    segs, kvs' := [Hole(a.0), Lit(text)], kvs[..i] + kvs[i + 1..] + [a];
    MoveLast(kvs, i);
    ReorderedKeys(kvs, kvs', exclude);
    hide Pattern, Render, Extract, ReplaceAll, Clean, Meets, Misses;
    FillOne(kvs', text, exclude);
    OccurringIsExtracted(name, a.1 + text, p);
    ExtractFindsHoles(segs);
    NamesOfOneHole(a.0, text);
    assert a.0 in Keys(kvs, exclude);
  }

  lemma {:induction false} MoveLast(kvs: Replacements, i: nat)
    requires i < |kvs|
    ensures Reorders(kvs[..i] + kvs[i + 1..] + [kvs[i]], kvs)
  {
    assert kvs == kvs[..i] + [kvs[i]] + kvs[i + 1..];
  }

  lemma {:induction false} NamesOfOneHole(key: string, text: string)
    ensures HoleNames([Hole(key), Lit(text)]) == {key}
  {
    var segs, tail := [Hole(key), Lit(text)], [Lit(text)];
    assert tail[1..] == [] && HoleNames(tail) == HoleNames(tail[1..]) == {};
    assert segs[1..] == tail && HoleNames(segs) == {key} + HoleNames(tail);
  }

  // ----- why the conditions are there -----

  /** A value that contains a placeholder is replaced again, or not, depending on the
      order of the keys. */
  lemma {:induction false} ValueWithBraceDependsOnOrder()
    ensures ReplaceAll("{{a}}", [("a", "{{b}}"), ("b", "x")], {}) == "x"
    ensures ReplaceAll("{{a}}", [("b", "x"), ("a", "{{b}}")], {}) == "{{b}}"
  {
    hide ReplaceAll, Replace;
    WholeReplace("a", "{{b}}");
    WholeReplace("b", "x");
    NoReplace("a", "b", "x");
    ReplaceTwo("{{a}}", ("a", "{{b}}"), ("b", "x"));
    ReplaceTwo("{{a}}", ("b", "x"), ("a", "{{b}}"));
    assert Pattern("b") == "{{b}}" && Pattern("a") == "{{a}}";
  }

  lemma {:induction false} ReplaceTwo(template: string, x: (string, string), y: (string, string))
    ensures ReplaceAll(template, [x, y], {}) == Replace(Replace(template, Pattern(x.0), x.1), Pattern(y.0), y.1)
  {
    hide Replace;
    assert [x, y][..1] == [x] && [x][..0] == [];
    assert ReplaceAll(template, [x], {}) == Replace(template, Pattern(x.0), x.1);
  }

  lemma {:induction false} WholeReplace(key: string, val: string)
    ensures Replace(Pattern(key), Pattern(key), val) == val
  {
    assert Pattern(key) <= Pattern(key) && Pattern(key)[|Pattern(key)|..] == "";
    assert val + "" == val;
  }

  lemma {:induction false} NoReplace(name: string, key: string, val: string)
    requires IsName(name) && '}' !in key && name != key
    ensures Replace(Pattern(name), Pattern(key), val) == Pattern(name)
  {
    ReplacePastHole(name, "", key, val);
    assert Pattern(name) + "" == Pattern(name);
  }
}
