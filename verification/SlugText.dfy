/** `generateSlug` of src/migrations/1767800000000-add-slug-to-sites.ts: a pipeline of regular
    expression replacements, each written as a recursive function on the string. */
module SlugText {
  import opened Common

  /** JavaScript's `\s`, which is also what `trim` removes. */
  predicate IsSpace(c: char) {
    c in {'\t', '\n', '\U{0B}', '\U{0C}', '\r', ' ', '\U{A0}', '\U{1680}', '\U{2028}', '\U{2029}', '\U{202F}',
          '\U{205F}', '\U{3000}', '\U{FEFF}'}
    || '\U{2000}' <= c <= '\U{200A}'
  }

  predicate IsSlugChar(c: char) {
    'a' <= c <= 'z' || '0' <= c <= '9' || c == '-'
  }

  /** `toLowerCase`, up to the characters the next step deletes: besides A to Z, only the Kelvin sign
      and the dotted capital I have an ASCII letter in their lower case, and no letter becomes a space. */
  function LowerChar(c: char): string {
    if 'A' <= c <= 'Z' then [('a' as int + (c as int - 'A' as int)) as char]
    else if c == '\U{212A}' then "k"
    else if c == '\U{0130}' then ['i', '\U{0307}']
    else [c]
  }

  function ToLower(s: string): string {
    if s == "" then "" else LowerChar(s[0]) + ToLower(s[1..])
  }

  function TrimStart(s: string): string {
    if s != "" && IsSpace(s[0]) then TrimStart(s[1..]) else s
  }

  function TrimEnd(s: string): string {
    if s != "" && IsSpace(s[|s| - 1]) then TrimEnd(s[..|s| - 1]) else s
  }

  function Trim(s: string): string {
    TrimEnd(TrimStart(s))
  }

  /** `replace(/[^a-z0-9\s-]/g, '')` */
  function KeepAllowed(s: string): string {
    if s == "" then ""
    else (if IsSlugChar(s[0]) || IsSpace(s[0]) then [s[0]] else "") + KeepAllowed(s[1..])
  }

  /** `replace(/\s+/g, '-')`: a run of spaces becomes one hyphen. */
  function SpacesToHyphen(s: string): string {
    if s == "" then ""
    else if !IsSpace(s[0]) then [s[0]] + SpacesToHyphen(s[1..])
    else if |s| > 1 && IsSpace(s[1]) then SpacesToHyphen(s[1..])
    else "-" + SpacesToHyphen(s[1..])
  }

  /** `replace(/-+/g, '-')` */
  function MergeHyphens(s: string): string {
    if s == "" then ""
    else if s[0] == '-' && |s| > 1 && s[1] == '-' then MergeHyphens(s[1..])
    else [s[0]] + MergeHyphens(s[1..])
  }

  /** `replace(/^-|-$/g, '')`: one hyphen at each end; a lone hyphen is matched once. */
  function StripHyphens(s: string): string {
    var t := if s != "" && s[0] == '-' then s[1..] else s;
    if t != "" && t[|t| - 1] == '-' then t[..|t| - 1] else t
  }

  function Truncate(s: string, n: nat): string {
    if |s| <= n then s else s[..n]
  }

  function Pipeline(name: string): string {
    StripHyphens(MergeHyphens(SpacesToHyphen(KeepAllowed(Trim(ToLower(name))))))
  }

  function GenerateSlug(name: string): string {
    if Trim(name) == "" then "site"
    else
      var slug := Pipeline(name);
      Truncate(if slug == "" then "site" else slug, 50)
  }

  /** `@IsSlug` on a string: /^[a-z0-9-]+$/ */
  predicate IsSlug(s: string) {
    s != "" && forall i :: 0 <= i < |s| ==> IsSlugChar(s[i])
  }

  predicate NoDoubleHyphen(s: string) {
    forall i :: 0 < i < |s| ==> !(s[i - 1] == '-' && s[i] == '-')
  }

  /** What every generated slug looks like. A slug cut at 50 characters may end in a hyphen. */
  predicate Generated(s: string) {
    IsSlug(s) && |s| <= 50 && NoDoubleHyphen(s) && s[0] != '-' && (|s| < 50 ==> s[|s| - 1] != '-')
  }

  lemma {:induction false} KeepAllowedChars(s: string)
    ensures forall i :: 0 <= i < |KeepAllowed(s)| ==> IsSlugChar(KeepAllowed(s)[i]) || IsSpace(KeepAllowed(s)[i])
  {
    if s != "" {
      KeepAllowedChars(s[1..]);
    }
  }

  lemma {:induction false} SpacesToHyphenChars(s: string)
    requires forall i :: 0 <= i < |s| ==> IsSlugChar(s[i]) || IsSpace(s[i])
    ensures forall i :: 0 <= i < |SpacesToHyphen(s)| ==> IsSlugChar(SpacesToHyphen(s)[i])
  {
    if s != "" {
      SpacesToHyphenChars(s[1..]);
    }
  }

  lemma {:induction false} MergeHyphensShape(s: string)
    requires forall i :: 0 <= i < |s| ==> IsSlugChar(s[i])
    ensures var r := MergeHyphens(s);
            NoDoubleHyphen(r) && (forall i :: 0 <= i < |r| ==> IsSlugChar(r[i]))
            && (s == "" <==> r == "") && (s != "" ==> r[0] == s[0])
  {
    if s != "" {
      MergeHyphensShape(s[1..]);
    }
  }

  lemma PipelineShape(name: string)
    ensures var r := Pipeline(name);
            NoDoubleHyphen(r) && (forall i :: 0 <= i < |r| ==> IsSlugChar(r[i]))
            && (r != "" ==> r[0] != '-' && r[|r| - 1] != '-')
  {
    var kept := KeepAllowed(Trim(ToLower(name)));
    KeepAllowedChars(Trim(ToLower(name)));
    SpacesToHyphenChars(kept);
    MergeHyphensShape(SpacesToHyphen(kept));
  }

  /** Every slug the migration generates passes the validator, fits the column, starts with a letter
      or digit and has no two hyphens in a row; the empty and the all-symbol name become "site". */
  lemma GeneratedShape(name: string)
    ensures Generated(GenerateSlug(name))
  {
    PipelineShape(name);
    var slug := if Pipeline(name) == "" then "site" else Pipeline(name);
    var cut := Truncate(slug, 50);
    if |slug| > 50 {
      assert forall i :: 0 <= i < |cut| ==> cut[i] == slug[i];
    }
  }

  lemma {:induction false} ToLowerFixes(s: string)
    requires forall i :: 0 <= i < |s| ==> IsSlugChar(s[i])
    ensures ToLower(s) == s
  {
    if s != "" {
      ToLowerFixes(s[1..]);
      assert s == [s[0]] + s[1..];
    }
  }

  lemma {:induction false} KeepAllowedFixes(s: string)
    requires forall i :: 0 <= i < |s| ==> IsSlugChar(s[i])
    ensures KeepAllowed(s) == s && SpacesToHyphen(s) == s
  {
    if s != "" {
      KeepAllowedFixes(s[1..]);
      assert s == [s[0]] + s[1..];
    }
  }

  lemma {:induction false} MergeHyphensFixes(s: string)
    requires NoDoubleHyphen(s)
    ensures MergeHyphens(s) == s
  {
    if s != "" {
      MergeHyphensFixes(s[1..]) by {
        assert forall i :: 0 < i < |s[1..]| ==> s[1..][i - 1] == s[i] && s[1..][i] == s[i + 1];
      }
      assert s == [s[0]] + s[1..];
    }
  }

  /** On text that is already clean, only the last step can do anything. */
  lemma CleanTextIsStripped(s: string)
    requires IsSlug(s) && NoDoubleHyphen(s)
    ensures Trim(s) == s && Pipeline(s) == StripHyphens(s)
  {
    ToLowerFixes(s);
    KeepAllowedFixes(s);
    MergeHyphensFixes(s);
    assert TrimStart(s) == s && TrimEnd(s) == s;
  }

  /** The pipeline recognises exactly its finished results: generating a slug leaves a string alone
      if and only if it already is a slug with no hyphen at either end and no two hyphens in a row. */
  lemma SlugsAreFixedPoints(s: string)
    ensures GenerateSlug(s) == s <==> Generated(s) && s[|s| - 1] != '-'
  {
    if GenerateSlug(s) == s {
      GeneratedShape(s);
    }
    if Generated(s) {
      CleanTextIsStripped(s);
      if s[|s| - 1] == '-' {
        assert |s| == 50 && |StripHyphens(s)| == 49;
      } else {
        assert StripHyphens(s) == s;
      }
    }
  }

  // ----- The slug and the name -----

  /** The letter or digit a character contributes: ASCII letters and digits in lower case, and the two other
      characters whose lower case is or begins with an ASCII letter. */
  function Contribution(c: char): Option<char> {
    var n := c as int;
    if 48 <= n <= 57 || 97 <= n <= 122 then Some(c)
    else if 65 <= n <= 90 then Some((n + 32) as char)
    else if n == 0x212A then Some('k')
    else if n == 0x130 then Some('i')
    else None
  }

  /** A hyphen, or white space as ECMA-262 defines it: sections 12.2 and 12.3. */
  predicate IsGap(c: char) {
    var n := c as int;
    n == 45 || 9 <= n <= 13 || n == 32 || n == 0xA0 || n == 0x1680 || 0x2000 <= n <= 0x200A
    || n == 0x2028 || n == 0x2029 || n == 0x202F || n == 0x205F || n == 0x3000 || n == 0xFEFF
  }

  /** The positions, from i on, of the characters that contribute. */
  function Contributors(s: string, i: nat): (p: seq<nat>)
    requires i <= |s|
    ensures forall j :: 0 <= j < |p| ==> i <= p[j] < |s| && Contribution(s[p[j]]).Some?
    decreases |s| - i
  {
    if i == |s| then []
    else if Contribution(s[i]).Some? then [i] + Contributors(s, i + 1)
    else Contributors(s, i + 1)
  }

  predicate GapBetween(s: string, a: int, b: int) {
    exists m :: a < m < b && 0 <= m < |s| && IsGap(s[m])
  }

  /** The slug has the letters and digits of the name, in order, and puts a hyphen between two neighbours exactly
      where the name has a gap between them. */
  predicate Spells(slug: string, name: string) {
    var p, q := Contributors(name, 0), Contributors(slug, 0);
    |p| == |q|
    && (forall j :: 0 <= j < |p| ==> Some(slug[q[j]]) == Contribution(name[p[j]]))
    && forall j :: 0 < j < |p| ==> (GapBetween(slug, q[j - 1], q[j]) <==> GapBetween(name, p[j - 1], p[j]))
  }

  /** What a string contributes, from left to right: each letter or digit, and whether a gap comes before it. */
  function Trace(s: string, gap: bool): seq<(char, bool)> {
    if s == "" then []
    else if Contribution(s[0]).Some? then [(Contribution(s[0]).value, gap)] + Trace(s[1..], false)
    else Trace(s[1..], gap || IsGap(s[0]))
  }

  lemma SpaceIsGap(c: char)
    ensures IsSpace(c) || c == '-' <==> IsGap(c)
    ensures IsGap(c) ==> Contribution(c) == None
    ensures IsSlugChar(c) && c != '-' <==> Contribution(c) == Some(c)
  {}

  lemma {:induction false} TraceOfLower(s: string, gap: bool)
    ensures Trace(ToLower(s), gap) == Trace(s, gap)
  {
    if s != "" {
      var c, low := s[0], LowerChar(s[0]);
      TraceOfLower(s[1..], false);
      TraceOfLower(s[1..], gap || IsGap(c));
      if |low| == 1 {
        assert ToLower(s)[0] == low[0] && ToLower(s)[1..] == ToLower(s[1..]);
      } else {
        var t := ToLower(s);
        assert t[0] == 'i' && t[1..][0] == '\U{0307}' && t[1..][1..] == ToLower(s[1..]);
        assert Trace(t, gap) == [('i', gap)] + Trace(t[1..], false);
      }
    }
  }

  lemma {:induction false} TraceOfTrimStart(s: string)
    ensures Trace(TrimStart(s), true) == Trace(s, true)
  {
    if s != "" && IsSpace(s[0]) {
      SpaceIsGap(s[0]);
      TraceOfTrimStart(s[1..]);
    }
  }

  lemma {:induction false} TraceOfEnd(s: string, c: char, gap: bool)
    requires Contribution(c) == None
    ensures Trace(s + [c], gap) == Trace(s, gap)
  {
    if s != "" {
      assert (s + [c])[1..] == s[1..] + [c];
      TraceOfEnd(s[1..], c, false);
      TraceOfEnd(s[1..], c, gap || IsGap(s[0]));
    } else {
      assert (s + [c])[1..] == "";
    }
  }

  lemma {:induction false} TraceOfTrimEnd(s: string, gap: bool)
    ensures Trace(TrimEnd(s), gap) == Trace(s, gap)
    decreases |s|
  {
    if s != "" && IsSpace(s[|s| - 1]) {
      var n := |s| - 1;
      SpaceIsGap(s[n]);
      assert s == s[..n] + [s[n]];
      TraceOfEnd(s[..n], s[n], gap);
      TraceOfTrimEnd(s[..n], gap);
    }
  }

  /** Only characters without an upper case are left. */
  predicate Lowered(s: string) {
    forall i :: 0 <= i < |s| ==> Contribution(s[i]).Some? ==> IsSlugChar(s[i])
  }

  lemma {:induction false} ToLowerLowers(s: string)
    ensures Lowered(ToLower(s))
  {
    if s != "" {
      ToLowerLowers(s[1..]);
      var low := LowerChar(s[0]);
      forall i | 0 <= i < |ToLower(s)| && Contribution(ToLower(s)[i]).Some? ensures IsSlugChar(ToLower(s)[i]) {
        if i < |low| {
          assert ToLower(s)[i] == low[i];
        } else {
          assert ToLower(s)[i] == ToLower(s[1..])[i - |low|];
        }
      }
    }
  }

  lemma {:induction false} TrimKeepsLowered(s: string)
    requires Lowered(s)
    ensures Lowered(TrimStart(s))
  {
    if s != "" && IsSpace(s[0]) {
      TrimKeepsLowered(s[1..]);
    }
  }

  lemma {:induction false} TrimEndKeepsLowered(s: string)
    requires Lowered(s)
    ensures Lowered(TrimEnd(s))
    decreases |s|
  {
    if s != "" && IsSpace(s[|s| - 1]) {
      TrimEndKeepsLowered(s[..|s| - 1]);
    }
  }

  lemma {:induction false} TraceOfAllowed(s: string, gap: bool)
    requires Lowered(s)
    ensures Trace(KeepAllowed(s), gap) == Trace(s, gap)
  {
    if s != "" {
      SpaceIsGap(s[0]);
      TraceOfAllowed(s[1..], false);
      TraceOfAllowed(s[1..], gap || IsGap(s[0]));
      if IsSlugChar(s[0]) || IsSpace(s[0]) {
        assert KeepAllowed(s)[1..] == KeepAllowed(s[1..]);
      } else {
        assert KeepAllowed(s) == KeepAllowed(s[1..]);
      }
    }
  }

  lemma {:induction false} TraceOfSpaces(s: string, gap: bool)
    ensures Trace(SpacesToHyphen(s), gap) == Trace(s, gap)
  {
    if s != "" {
      SpaceIsGap(s[0]);
      SpaceIsGap('-');
      TraceOfSpaces(s[1..], false);
      TraceOfSpaces(s[1..], gap);
      TraceOfSpaces(s[1..], true);
      if !IsSpace(s[0]) {
        assert SpacesToHyphen(s)[1..] == SpacesToHyphen(s[1..]);
      } else if |s| > 1 && IsSpace(s[1]) {
        SpaceIsGap(s[1]);
      } else {
        assert SpacesToHyphen(s)[1..] == SpacesToHyphen(s[1..]);
      }
    }
  }

  lemma {:induction false} TraceOfMerge(s: string, gap: bool)
    ensures Trace(MergeHyphens(s), gap) == Trace(s, gap)
  {
    if s != "" {
      SpaceIsGap(s[0]);
      TraceOfMerge(s[1..], false);
      TraceOfMerge(s[1..], gap);
      TraceOfMerge(s[1..], true);
      if s[0] == '-' && |s| > 1 && s[1] == '-' {
        assert Trace(s[1..], gap) == Trace(s[1..][1..], true);
      } else {
        assert MergeHyphens(s)[1..] == MergeHyphens(s[1..]);
      }
    }
  }

  lemma TraceOfStrip(s: string)
    ensures Trace(StripHyphens(s), true) == Trace(s, true)
  {
    SpaceIsGap('-');
    var t := if s != "" && s[0] == '-' then s[1..] else s;
    assert Trace(t, true) == Trace(s, true);
    if t != "" && t[|t| - 1] == '-' {
      assert t == t[..|t| - 1] + ['-'];
      TraceOfEnd(t[..|t| - 1], '-', true);
    }
  }

  lemma TraceOfPipeline(name: string)
    ensures Trace(Pipeline(name), true) == Trace(name, true)
  {
    hide Trace, ToLower, TrimStart, TrimEnd, KeepAllowed, SpacesToHyphen, MergeHyphens, StripHyphens, Lowered;
    var low := ToLower(name);
    var kept := KeepAllowed(Trim(low));
    TraceOfLower(name, true);
    TraceOfTrimStart(low);
    TraceOfTrimEnd(TrimStart(low), true);
    ToLowerLowers(name);
    TrimKeepsLowered(low);
    TrimEndKeepsLowered(TrimStart(low));
    TraceOfAllowed(Trim(low), true);
    TraceOfSpaces(kept, true);
    TraceOfMerge(SpacesToHyphen(kept), true);
    TraceOfStrip(MergeHyphens(SpacesToHyphen(kept)));
  }

  lemma TraceStep(s: string, i: nat, gap: bool)
    requires i < |s|
    ensures var c := s[i];
            if Contribution(c).Some? then
              Trace(s[i..], gap) == [(Contribution(c).value, gap)] + Trace(s[i + 1..], false)
              && Contributors(s, i) == [i] + Contributors(s, i + 1)
            else
              Trace(s[i..], gap) == Trace(s[i + 1..], gap || IsGap(c)) && Contributors(s, i) == Contributors(s, i + 1)
  {
    assert s[i..][0] == s[i] && s[i..][1..] == s[i + 1..];
  }

  lemma NoGap(s: string, i: int)
    ensures !GapBetween(s, i - 1, i)
  {}

  /** Entry j of the trace from i on is that of contributor j. */
  predicate TraceMatches(s: string, i: nat, gap: bool, j: nat)
    requires i <= |s|
  {
    var p, trace := Contributors(s, i), Trace(s[i..], gap);
    j < |p| == |trace| && Some(trace[j].0) == Contribution(s[p[j]])
    && (trace[j].1 <==> if j == 0 then gap || GapBetween(s, i - 1, p[0]) else GapBetween(s, p[j - 1], p[j]))
  }

  lemma MatchesHere(s: string, i: nat, gap: bool)
    requires i < |s| && Contribution(s[i]).Some?
    ensures TraceMatches(s, i, gap, 0)
  {
    TraceLength(s, i, gap);
    TraceStep(s, i, gap);
    hide Trace, Contributors, GapBetween;
    NoGap(s, i);
  }

  lemma MatchesNext(s: string, i: nat, gap: bool, j: nat)
    requires i < |s| && Contribution(s[i]).Some? && TraceMatches(s, i + 1, false, j)
    ensures TraceMatches(s, i, gap, j + 1)
  {
    TraceLength(s, i, gap);
    TraceStep(s, i, gap);
    hide Trace, Contributors, GapBetween, Contribution;
  }

  lemma MatchesSkip(s: string, i: nat, gap: bool, j: nat)
    requires i < |s| && Contribution(s[i]) == None && TraceMatches(s, i + 1, gap || IsGap(s[i]), j)
    ensures TraceMatches(s, i, gap, j)
  {
    TraceStep(s, i, gap);
    hide Trace, Contributors, GapBetween, Contribution, IsGap;
    FirstGap(s, i, Contributors(s, i)[0]);
  }

  lemma {:induction false} TraceAt(s: string, i: nat, gap: bool, j: nat)
    requires i <= |s| && j < |Contributors(s, i)|
    ensures TraceMatches(s, i, gap, j)
    decreases |s| - i
  {
    hide TraceMatches, Trace, Contribution, IsGap;
    if Contribution(s[i]).Some? {
      if j == 0 {
        MatchesHere(s, i, gap);
      } else {
        TraceAt(s, i + 1, false, j - 1);
        MatchesNext(s, i, gap, j - 1);
      }
    } else {
      TraceAt(s, i + 1, gap || IsGap(s[i]), j);
      MatchesSkip(s, i, gap, j);
    }
  }

  lemma FirstGap(s: string, i: nat, b: int)
    requires i < |s| && i < b
    ensures GapBetween(s, i - 1, b) <==> IsGap(s[i]) || GapBetween(s, i, b)
  {}

  lemma {:induction false} TraceLength(s: string, i: nat, gap: bool)
    requires i <= |s|
    ensures |Trace(s[i..], gap)| == |Contributors(s, i)|
    decreases |s| - i
  {
    if i < |s| {
      assert s[i..][0] == s[i] && s[i..][1..] == s[i + 1..];
      TraceLength(s, i + 1, false);
      TraceLength(s, i + 1, gap || IsGap(s[i]));
    }
  }

  lemma EqualTracesSpell(slug: string, name: string)
    requires Trace(slug, true) == Trace(name, true)
    requires forall i :: 0 <= i < |slug| ==> IsSlugChar(slug[i])
    ensures Spells(slug, name)
  {
    var p, q := Contributors(name, 0), Contributors(slug, 0);
    assert slug[0..] == slug && name[0..] == name;
    TraceLength(name, 0, true);
    TraceLength(slug, 0, true);
    forall j | 0 <= j < |p|
      ensures Some(slug[q[j]]) == Contribution(name[p[j]])
      ensures j > 0 ==> (GapBetween(slug, q[j - 1], q[j]) <==> GapBetween(name, p[j - 1], p[j]))
    {
      TraceAt(name, 0, true, j);
      TraceAt(slug, 0, true, j);
      SpaceIsGap(slug[q[j]]);
    }
  }

  predicate NoContributor(s: string) {
    forall i :: 0 <= i < |s| ==> Contribution(s[i]) == None
  }

  lemma {:induction false} EmptyTrace(s: string, gap: bool)
    ensures Trace(s, gap) == [] <==> NoContributor(s)
  {
    if s != "" {
      EmptyTrace(s[1..], gap || IsGap(s[0]));
      assert NoContributor(s[1..]) <==> forall i :: 0 < i < |s| ==> Contribution(s[i]) == None by {
        assert forall i :: 0 < i < |s| ==> s[1..][i - 1] == s[i];
      }
    }
  }

  /** The slug before it is cut: the result of the replacements, or "site". */
  function WholeSlug(name: string): string {
    if Pipeline(name) == "" then "site" else Pipeline(name)
  }

  /** Every slug is the beginning, at most 50 characters, of one that spells the name; a name without any letter or
      digit gives "site". */
  lemma SlugSpellsName(name: string)
    ensures NoContributor(name) ==> GenerateSlug(name) == "site"
    ensures var whole := WholeSlug(name);
            GenerateSlug(name) == (if |whole| <= 50 then whole else whole[..50])
            && (!NoContributor(name) ==>
                  Spells(whole, name) && IsSlug(whole) && NoDoubleHyphen(whole)
                  && whole[0] != '-' && whole[|whole| - 1] != '-')
  {
    PipelineShape(name);
    TraceOfPipeline(name);
    EmptyTrace(name, true);
    EmptyTrace(Pipeline(name), true);
    if Trim(name) == "" {
      TraceOfTrimStart(name);
      TraceOfTrimEnd(TrimStart(name), true);
      assert Trace("", true) == [];
    }
    if NoContributor(name) {
      OnlyHyphens(Pipeline(name));
    } else {
      EqualTracesSpell(Pipeline(name), name);
    }
  }

  lemma OnlyHyphens(s: string)
    requires NoContributor(s) && forall i :: 0 <= i < |s| ==> IsSlugChar(s[i])
    requires s != "" ==> s[0] != '-'
    ensures s == ""
  {
    if s != "" {
      SpaceIsGap(s[0]);
    }
  }
}
