/** The file name a game's analysis is exported under: its display name with every run of
    characters outside `[A-Za-z0-9_]` made one `_`, and `_` stripped from both ends. */
module ExportName {
  import opened Common
  import opened Text
  import Merge

  /** A character the sanitised name may keep: an ASCII letter or digit, or `_`. */
  predicate IsNameChar(c: char) { IsAlnum(c) || c == '_' }

  /** What is left after the run of characters outside the class at the start of `s`. */
  function SkipRun(s: string): (r: string)
    ensures |r| <= |s| && r == s[|s| - |r|..]
    ensures r == [] || IsNameChar(r[0])
    ensures forall i :: 0 <= i < |s| - |r| ==> !IsNameChar(s[i])
  {
    if s == [] || IsNameChar(s[0]) then s else SkipRun(s[1..])
  }

  /** `re.sub(r'[^A-Za-z0-9_]+', '_', s)`: each maximal run of other characters becomes one
      `_`. */
  function Substitute(s: string): (r: string)
    ensures forall i :: 0 <= i < |r| ==> IsNameChar(r[i])
    decreases |s|
  {
    if s == [] then []
    else if IsNameChar(s[0]) then [s[0]] + Substitute(s[1..])
    else "_" + Substitute(SkipRun(s[1..]))
  }

  function StripLeft(s: string, c: char): (r: string)
    ensures r == [] || r[0] != c
    ensures |r| <= |s| && r == s[|s| - |r|..]
    ensures forall x :: x in r ==> x in s
  {
    if s != [] && s[0] == c then StripLeft(s[1..], c) else s
  }

  function StripRight(s: string, c: char): (r: string)
    ensures r == [] || r[|r| - 1] != c
    ensures |r| <= |s| && r == s[..|r|]
    ensures forall x :: x in r ==> x in s
  {
    if s != [] && s[|s| - 1] == c then StripRight(s[..|s| - 1], c) else s
  }

  /** `s.strip(c)` */
  function Strip(s: string, c: char): string {
    StripRight(StripLeft(s, c), c)
  }

  /** The sanitised name `safe_name`. */
  function SafeName(name: string): string {
    Strip(Substitute(name), '_')
  }

  /** `{safe_name}_analysis.xlsx`, or nothing when the name is empty and the export is
      skipped. */
  function ExportFile(name: string): Option<string> {
    var safe := SafeName(name);
    if safe == [] then None else Some(safe + Merge.AnalysisSuffix)
  }

  /** Stripping from both ends leaves no `c` at either end. */
  lemma StripEnds(s: string, c: char)
    ensures var r := Strip(s, c);
      r == [] || (r[0] != c && r[|r| - 1] != c)
  {
    var l := StripLeft(s, c);
    var r := StripRight(l, c);
    if r != [] {
      assert r[0] == l[0];
    }
  }

  /** The sanitised name holds only letters, digits and `_`, and neither starts nor ends with
      `_`. */
  lemma SafeNameShape(name: string)
    ensures var r := SafeName(name);
      && (forall i :: 0 <= i < |r| ==> IsNameChar(r[i]))
      && (r == [] || (r[0] != '_' && r[|r| - 1] != '_'))
  {
    var sub := Substitute(name);
    StripEnds(sub, '_');
    var r := SafeName(name);
    forall j | 0 <= j < |r| ensures IsNameChar(r[j]) {
      assert r[j] in StripLeft(sub, '_');
      var k :| 0 <= k < |sub| && sub[k] == r[j];
    }
  }

  /** A name made of letters, digits and `_` is left as it is by the substitution. */
  lemma {:induction false} SubstituteKeeps(s: string)
    requires forall i :: 0 <= i < |s| ==> IsNameChar(s[i])
    ensures Substitute(s) == s
  {
    if s != [] {
      SubstituteKeeps(s[1..]);
    }
  }

  /** Sanitising a sanitised name changes nothing. */
  lemma SafeNameIdempotent(name: string)
    ensures SafeName(SafeName(name)) == SafeName(name)
  {
    var r := SafeName(name);
    SafeNameShape(name);
    SubstituteKeeps(r);
    if r != [] {
      assert StripLeft(r, '_') == r;
    }
  }

  /** The letters and digits of a run of other characters: none. */
  lemma SkipRunAlnums(s: string)
    ensures Filter(SkipRun(s), IsAlnum) == Filter(s, IsAlnum)
    decreases |s|
  {
    if s != [] && !IsNameChar(s[0]) {
      SkipRunAlnums(s[1..]);
    }
  }

  /** The substitution keeps every letter and digit, in order. */
  lemma {:induction false} SubstituteAlnums(s: string)
    ensures Filter(Substitute(s), IsAlnum) == Filter(s, IsAlnum)
    decreases |s|
  {
    if s != [] {
      if IsNameChar(s[0]) {
        SubstituteAlnums(s[1..]);
        assert ([s[0]] + Substitute(s[1..]))[1..] == Substitute(s[1..]);
      } else {
        SubstituteAlnums(SkipRun(s[1..]));
        SkipRunAlnums(s[1..]);
        assert ("_" + Substitute(SkipRun(s[1..])))[1..] == Substitute(SkipRun(s[1..]));
      }
    }
  }

  /** Stripping `_` keeps every letter and digit, in order. */
  lemma {:induction false} StripLeftAlnums(s: string)
    ensures Filter(StripLeft(s, '_'), IsAlnum) == Filter(s, IsAlnum)
  {
    if s != [] && s[0] == '_' {
      StripLeftAlnums(s[1..]);
    }
  }

  lemma {:induction false} StripRightAlnums(s: string)
    ensures Filter(StripRight(s, '_'), IsAlnum) == Filter(s, IsAlnum)
  {
    if s != [] && s[|s| - 1] == '_' {
      var init := s[..|s| - 1];
      StripRightAlnums(init);
      assert s == init + ['_'];
      FilterAppend(init, ['_'], IsAlnum);
    }
  }

  /** Sanitising keeps exactly the letters and digits of the display name, in order. */
  lemma SafeNameAlnums(name: string)
    ensures Filter(SafeName(name), IsAlnum) == Filter(name, IsAlnum)
  {
    SubstituteAlnums(name);
    StripLeftAlnums(Substitute(name));
    StripRightAlnums(StripLeft(Substitute(name), '_'));
  }

  /** The export is skipped exactly when the display name has no ASCII letter or digit. */
  lemma SkippedIff(name: string)
    ensures ExportFile(name).None? <==> Filter(name, IsAlnum) == []
  {
    var r := SafeName(name);
    SafeNameAlnums(name);
    SafeNameShape(name);
    if r != [] {
      assert IsAlnum(r[0]);
      assert r[0] in Filter(r, IsAlnum);
    }
  }

  /** The merge reads the exported file's game back as the sanitised name with its `_` turned
      into spaces: the suffix cannot occur earlier, since its `.` is not a name character. */
  lemma MergedBaseGame(name: string)
    requires ExportFile(name).Some?
    ensures Merge.BaseGame(ExportFile(name).value, Merge.AnalysisSuffix) == ReplaceChar(SafeName(name), '_', ' ')
  {
    var stem := SafeName(name);
    SafeNameShape(name);
    SuffixMark();
    NoEarlierSuffix(stem, Merge.AnalysisSuffix, 9);
    Merge.BaseGameOfStem(stem, Merge.AnalysisSuffix);
  }

  /** The analysis suffix starts with nine name characters followed by a `.`. */
  lemma SuffixMark()
    ensures |Merge.AnalysisSuffix| > 9 && !IsNameChar(Merge.AnalysisSuffix[9])
    ensures forall k :: 0 <= k < 9 ==> IsNameChar(Merge.AnalysisSuffix[k])
  {
    forall k | 0 <= k < 9 ensures IsNameChar(Merge.AnalysisSuffix[k]) {
      assert k == 0 || k == 1 || k == 2 || k == 3 || k == 4 || k == 5 || k == 6 || k == 7 || k == 8;
    }
  }

  /** A suffix whose character `p` is not a name character, preceded only by name characters,
      occurs after a name made of name characters only at its end. */
  lemma NoEarlierSuffix(stem: string, suffix: string, p: nat)
    requires p < |suffix| && !IsNameChar(suffix[p])
    requires forall k :: 0 <= k < p ==> IsNameChar(suffix[k])
    requires forall i :: 0 <= i < |stem| ==> IsNameChar(stem[i])
    ensures forall i :: 0 <= i < |stem| ==> !OccursAt(stem + suffix, suffix, i)
  {
    var hay := stem + suffix;
    forall i | 0 <= i < |stem| ensures !OccursAt(hay, suffix, i) {
      if i + |suffix| <= |hay| {
        assert IsNameChar(hay[i + p]) by {
          if i + p < |stem| {
            assert hay[i + p] == stem[i + p];
          } else {
            assert hay[i + p] == suffix[i + p - |stem|];
          }
        }
        assert hay[i..i + |suffix|][p] == hay[i + p];
      }
    }
  }
}
