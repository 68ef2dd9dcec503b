// The recursive coverage grouping of the CI summary (scripts/ci_coverage_summary.py).
module CoverageSummary {
  import opened Subsequences
  import opened Text

  /** One measured file: its path, covered lines, total lines. */
  datatype Measured = Measured(path: string, covered: int, total: int)

  // ---- String helpers --------------------------------------------------------

  predicate EndsWith(s: string, suffix: string) { |suffix| <= |s| && s[|s| - |suffix|..] == suffix }

  function WithoutSuffix(s: string, suffix: string): string {
    if EndsWith(s, suffix) then s[..|s| - |suffix|] else s
  }

  predicate Contains(s: string, needle: string) {
    exists i :: 0 <= i <= |s| && needle <= s[i..]
  }

  function Slashes(s: string): string {
    if s == "" then "" else [if s[0] == '\\' then '/' else s[0]] + Slashes(s[1..])
  }

  /** lstrip("./"): every leading '.' or '/', not the prefix "./". */
  function LStripDots(s: string): string {
    if s != "" && (s[0] == '.' || s[0] == '/') then LStripDots(s[1..]) else s
  }

  function Norm(path: string): string { LStripDots(Slashes(path)) }

  lemma {:induction false} SlashesIdempotent(s: string)
    ensures '\\' !in Slashes(s)
    ensures '\\' !in s ==> Slashes(s) == s
    decreases |s|
  {
    if s != "" {
      SlashesIdempotent(s[1..]);
      if '\\' !in s {
        assert s[0] in s && forall c :: c in s[1..] ==> c in s;
        assert [s[0]] + s[1..] == s;
      }
    }
  }

  lemma {:induction false} LStripDotsIdempotent(s: string)
    ensures LStripDots(LStripDots(s)) == LStripDots(s)
    ensures forall c :: c in LStripDots(s) ==> c in s
    decreases |s|
  {
    if s != "" && (s[0] == '.' || s[0] == '/') {
      LStripDotsIdempotent(s[1..]);
    }
  }

  /** Normalising twice is normalising once, so it does not matter which of the
      two paths were already normalised when they are compared. */
  lemma NormIdempotent(path: string)
    ensures Norm(Norm(path)) == Norm(path)
  {
    SlashesIdempotent(path);
    LStripDotsIdempotent(Slashes(path));
    SlashesIdempotent(Norm(path));
  }

  // ---- Which files count as changed ------------------------------------------

  lemma {:induction false} SlashesMeaning(s: string)
    ensures |Slashes(s)| == |s|
    ensures forall i :: 0 <= i < |s| ==> Slashes(s)[i] == if s[i] == '\\' then '/' else s[i]
    decreases |s|
  {
    if s != "" {
      SlashesMeaning(s[1..]);
    }
  }

  lemma {:induction false} LStripDotsMeaning(s: string) returns (k: nat)
    ensures k <= |s| && LStripDots(s) == s[k..] && (k < |s| ==> s[k] != '.' && s[k] != '/')
    ensures forall i :: 0 <= i < k ==> s[i] == '.' || s[i] == '/'
    decreases |s|
  {
    k := 0;
    if s != "" && (s[0] == '.' || s[0] == '/') {
      var j := LStripDotsMeaning(s[1..]);
      k := j + 1;
      assert s[1..][j..] == s[k..];
      forall i | 0 <= i < k ensures s[i] == '.' || s[i] == '/' { if i > 0 { assert s[i] == s[1..][i - 1]; } }
    }
  }

  /** What normalising does: a leading stretch of dots and slashes of either kind goes,
      as far as it reaches, and every other backslash becomes a slash. */
  lemma NormMeaning(path: string) returns (k: nat)
    ensures k <= |path| && |Norm(path)| == |path| - k
    ensures forall i :: 0 <= i < k ==> path[i] in {'.', '/', '\\'}
    ensures k < |path| ==> path[k] !in {'.', '/', '\\'}
    ensures forall i :: 0 <= i < |path| - k ==> Norm(path)[i] == if path[k + i] == '\\' then '/' else path[k + i]
  {
    SlashesMeaning(path);
    k := LStripDotsMeaning(Slashes(path));
  }

  /** The paths a changed file may have in a coverage report. The second prefix of
      the source, "./frontend/", can never start a normalised path. */
  function Variants(changed: string): set<string> {
    if "frontend/" <= changed then {changed, changed[|"frontend/"|..]} else {changed}
  }

  predicate SamePath(coverage: string, item: string) {
    coverage == item || EndsWith(coverage, "/" + item) || EndsWith(item, "/" + coverage)
  }

  lemma {:induction false} LStripDotsHead(s: string)
    ensures LStripDots(s) != "" ==> LStripDots(s)[0] != '.' && LStripDots(s)[0] != '/'
    decreases |s|
  {
    if s != "" && (s[0] == '.' || s[0] == '/') {
      LStripDotsHead(s[1..]);
    }
  }

  lemma NormHasNoDot(path: string)
    ensures Norm(path) != "" ==> Norm(path)[0] != '.' && Norm(path)[0] != '/'
  {
    LStripDotsHead(Slashes(path));
  }

  predicate IsSameFile(coveragePath: string, changedPath: string) {
    exists item :: item in Variants(Norm(changedPath)) && SamePath(Norm(coveragePath), item)
  }

  ghost predicate IsSuffix(a: seq<string>, b: seq<string>) { |a| <= |b| && b[|b| - |a|..] == a }

  /** One path's segments are the last ones of the other. */
  ghost predicate Related(a: string, b: string) {
    IsSuffix(Segments(a), Segments(b)) || IsSuffix(Segments(b), Segments(a))
  }

  lemma SegmentSuffix(a: string, b: string)
    ensures a == b || EndsWith(b, "/" + a) <==> IsSuffix(Segments(a), Segments(b))
  {
    if EndsWith(b, "/" + a) {
      var stem := b[..|b| - |a| - 1];
      assert b == stem + ['/'] + a;
      SplitAppend(stem, a, '/');
    }
    if IsSuffix(Segments(a), Segments(b)) {
      var stem := Segments(b)[..|Segments(b)| - |Segments(a)|];
      assert Segments(b) == stem + Segments(a);
      JoinSplit(a, '/');
      JoinSplit(b, '/');
      if stem == [] {
        assert Segments(b) == Segments(a);
      } else {
        JoinAppend(stem, Segments(a), '/');
        assert b == Join(stem, '/') + "/" + a;
      }
    }
  }

  lemma SamePathMeaning(a: string, b: string)
    ensures SamePath(a, b) <==> Related(a, b)
  {
    SegmentSuffix(a, b);
    SegmentSuffix(b, a);
  }

  /** Two paths name the same file when, normalised, one is the end of the other in
      whole segments - with or without a leading "frontend/" of the changed one. */
  lemma SameFileMeaning(coveragePath: string, changedPath: string)
    ensures IsSameFile(coveragePath, changedPath) <==>
            var c, n := Norm(coveragePath), Norm(changedPath);
            Related(c, n) || ("frontend/" <= n && Related(c, n[9..]))
  {
    var c, n := Norm(coveragePath), Norm(changedPath);
    SamePathMeaning(c, n);
    assert n in Variants(n);
    if "frontend/" <= n {
      SamePathMeaning(c, n[9..]);
      assert n[9..] in Variants(n);
    }
  }

  /** same_file */
  method SameFile(coveragePath: string, changedPath: string) returns (same: bool)
    ensures same == IsSameFile(coveragePath, changedPath)
  {
    var coverage, changed := Norm(coveragePath), Norm(changedPath);
    var variants := {changed};
    var prefixes := ["frontend/", "./frontend/"];
    for i := 0 to |prefixes|
      invariant variants == if i == 0 then {changed} else Variants(changed)
    {
      if prefixes[i] <= changed {
        if i == 1 { NormHasNoDot(changedPath); }
        variants := variants + {changed[|prefixes[i]|..]};
      }
    }
    return exists item :: item in variants && SamePath(coverage, item);
  }

  /** is_changed */
  predicate IsChanged(path: string, changedFiles: set<string>) {
    exists c :: c in changedFiles && IsSameFile(path, c)
  }

  /** A file is changed when it is the same file as some changed path. */
  lemma IsChangedMeaning(path: string, changedFiles: set<string>)
    ensures IsChanged(path, changedFiles) <==>
            exists changed :: changed in changedFiles &&
              (Related(Norm(path), Norm(changed))
               || ("frontend/" <= Norm(changed) && Related(Norm(path), Norm(changed)[9..])))
  {
    forall changed | changed in changedFiles
      ensures IsSameFile(path, changed) <==>
              (Related(Norm(path), Norm(changed))
               || ("frontend/" <= Norm(changed) && Related(Norm(path), Norm(changed)[9..])))
    {
      SameFileMeaning(path, changed);
    }
  }

  // ---- select_group ----------------------------------------------------------

  predicate Has(path: string, needle: string) {
    var value := "/" + Norm(path);
    "/" + needle <= value || Contains(value, "/" + needle)
  }

  /** The file test of a plain group; unknown groups select nothing. */
  predicate InGroup(suite: string, group: string, path: string) {
    if suite == "backend" && group == "backend_admin" then
      Has(path, "routers/admin") || Has(path, "services/admin") || Has(path, "schemas/admin")
    else if suite == "backend" && group == "backend_platform" then
      || Has(path, "core/") || Has(path, "routers/") || Has(path, "services/") || Has(path, "models/")
      || Has(path, "schemas/")
    else if suite == "frontend" && group == "frontend_admin" then
      Has(path, "src/pages/admin/") || Has(path, "src/components/admin/")
    else suite == "frontend" && group == "frontend_ui" && Has(path, "src/")
  }

  const CHANGED := "_changed"
  const OVERALL := "_overall"

  function FilterGroup(suite: string, group: string, files: seq<Measured>): seq<Measured> {
    if files == [] then []
    else FilterGroup(suite, group, files[..|files| - 1])
         + (if InGroup(suite, group, files[|files| - 1].path) then [files[|files| - 1]] else [])
  }

  function FilterChanged(files: seq<Measured>, changedFiles: set<string>): seq<Measured> {
    if files == [] then []
    else FilterChanged(files[..|files| - 1], changedFiles)
         + (if IsChanged(files[|files| - 1].path, changedFiles) then [files[|files| - 1]] else [])
  }

  /** select_group: the recursion ends because a "_changed" suffix is taken off each time. */
  function SelectGroup(suite: string, group: string, files: seq<Measured>, changedFiles: set<string>): seq<Measured>
    decreases |group|
  {
    if EndsWith(group, CHANGED) then
      FilterChanged(SelectGroup(suite, WithoutSuffix(group, CHANGED), files, changedFiles), changedFiles)
    else if EndsWith(group, OVERALL) then files
    else FilterGroup(suite, group, files)
  }

  lemma {:induction false} FilterGroupPicks(suite: string, group: string, files: seq<Measured>)
    ensures Subsequence(FilterGroup(suite, group, files), files)
    decreases |files|
  {
    if files == [] {
      WholeIsSubsequence(files);
    } else {
      var n := |files| - 1;
      FilterGroupPicks(suite, group, files[..n]);
      SubsequenceSnoc(FilterGroup(suite, group, files[..n]), files, InGroup(suite, group, files[n].path));
    }
  }

  lemma {:induction false} FilterChangedPicks(files: seq<Measured>, changedFiles: set<string>)
    ensures Subsequence(FilterChanged(files, changedFiles), files)
    decreases |files|
  {
    if files == [] {
      WholeIsSubsequence(files);
    } else {
      var n := |files| - 1;
      FilterChangedPicks(files[..n], changedFiles);
      SubsequenceSnoc(FilterChanged(files[..n], changedFiles), files, IsChanged(files[n].path, changedFiles));
    }
  }

  /** Main result: whatever the group's name, with any number of "_changed"
      suffixes, the selection is the measured files with some left out, in order. */
  lemma {:induction false} SelectionIsSubsequence(suite: string, group: string, files: seq<Measured>,
                                                  changedFiles: set<string>)
    ensures Subsequence(SelectGroup(suite, group, files, changedFiles), files)
    decreases |group|
  {
    if EndsWith(group, CHANGED) {
      var source := WithoutSuffix(group, CHANGED);
      SelectionIsSubsequence(suite, source, files, changedFiles);
      var selected := SelectGroup(suite, source, files, changedFiles);
      FilterChangedPicks(selected, changedFiles);
      SubsequenceTrans(FilterChanged(selected, changedFiles), selected, files);
    } else if EndsWith(group, OVERALL) {
      WholeIsSubsequence(files);
    } else {
      FilterGroupPicks(suite, group, files);
    }
  }

  lemma {:induction false} FilterChangedOnlyChanged(files: seq<Measured>, changedFiles: set<string>)
    ensures forall f :: f in FilterChanged(files, changedFiles) ==> IsChanged(f.path, changedFiles)
    decreases |files|
  {
    if files != [] {
      FilterChangedOnlyChanged(files[..|files| - 1], changedFiles);
    }
  }

  lemma {:induction false} FilterChangedKeeps(files: seq<Measured>, changedFiles: set<string>)
    requires forall i :: 0 <= i < |files| ==> IsChanged(files[i].path, changedFiles)
    ensures FilterChanged(files, changedFiles) == files
    decreases |files|
  {
    if files != [] {
      var n := |files| - 1;
      var init := files[..n];
      forall i | 0 <= i < |init| ensures IsChanged(init[i].path, changedFiles) { assert init[i] == files[i]; }
      FilterChangedKeeps(init, changedFiles);
      assert IsChanged(files[n].path, changedFiles);
      assert files == init + [files[n]];
    }
  }

  /** Filtering for changed files twice is filtering once. */
  lemma FilterChangedIdempotent(files: seq<Measured>, changedFiles: set<string>)
    ensures FilterChanged(FilterChanged(files, changedFiles), changedFiles) == FilterChanged(files, changedFiles)
  {
    var once := FilterChanged(files, changedFiles);
    FilterChangedOnlyChanged(files, changedFiles);
    assert forall i :: 0 <= i < |once| ==> once[i] in once;
    FilterChangedKeeps(once, changedFiles);
  }

  // ---- Totals and percentages ------------------------------------------------

  function Covered(files: seq<Measured>): int {
    if files == [] then 0 else Covered(files[..|files| - 1]) + files[|files| - 1].covered
  }

  function TotalLines(files: seq<Measured>): int {
    if files == [] then 0 else TotalLines(files[..|files| - 1]) + files[|files| - 1].total
  }

  /** What the Cobertura reader guarantees of every file it keeps. */
  ghost predicate Cobertura(files: seq<Measured>) {
    forall f :: f in files ==> 0 <= f.covered <= f.total && f.total > 0
  }

  ghost predicate AtMost(a: seq<Measured>, b: seq<Measured>) {
    0 <= Covered(a) <= Covered(b) && 0 <= TotalLines(a) <= TotalLines(b)
  }

  lemma SnocTotals(files: seq<Measured>, f: Measured)
    ensures Covered([]) == 0 && TotalLines([]) == 0
    ensures Covered(files + [f]) == Covered(files) + f.covered && Covered(files + []) == Covered(files)
    ensures TotalLines(files + [f]) == TotalLines(files) + f.total && TotalLines(files + []) == TotalLines(files)
  {
    assert (files + [f])[..|files|] == files;
    assert files + [] == files;
  }

  lemma SnocAtMost(a: seq<Measured>, b: seq<Measured>, f: Measured, inA: bool, inB: bool)
    requires AtMost(a, b) && (inA ==> inB) && 0 <= f.covered <= f.total
    ensures AtMost(a + (if inA then [f] else []), b + (if inB then [f] else []))
  {
    SnocTotals(a, f);
    SnocTotals(b, f);
  }

  lemma IsChangedMonotone(path: string, fewer: set<string>, more: set<string>)
    requires fewer <= more
    ensures IsChanged(path, fewer) ==> IsChanged(path, more)
  {
  }

  lemma CoberturaParts(files: seq<Measured>)
    requires Cobertura(files) && files != []
    ensures Cobertura(files[..|files| - 1]) && 0 <= files[|files| - 1].covered <= files[|files| - 1].total
  {
    assert files[|files| - 1] in files && forall f :: f in files[..|files| - 1] ==> f in files;
  }

  lemma {:induction false} ChangedMonotone(files: seq<Measured>, fewer: set<string>, more: set<string>)
    requires Cobertura(files) && fewer <= more
    ensures AtMost(FilterChanged(files, fewer), FilterChanged(files, more))
    decreases |files|
  {
    if files != [] {
      var n := |files| - 1;
      var few, many := IsChanged(files[n].path, fewer), IsChanged(files[n].path, more);
      CoberturaParts(files);
      ChangedMonotone(files[..n], fewer, more);
      IsChangedMonotone(files[n].path, fewer, more);
      SnocAtMost(FilterChanged(files[..n], fewer), FilterChanged(files[..n], more), files[n], few, many);
    }
  }

  lemma {:induction false} ChangedWithin(files: seq<Measured>, changedFiles: set<string>)
    requires Cobertura(files)
    ensures AtMost(FilterChanged(files, changedFiles), files)
    decreases |files|
  {
    if files != [] {
      var n := |files| - 1;
      var changed := IsChanged(files[n].path, changedFiles);
      CoberturaParts(files);
      ChangedWithin(files[..n], changedFiles);
      assert files == files[..n] + [files[n]];
      SnocAtMost(FilterChanged(files[..n], changedFiles), files[..n], files[n], changed, true);
    }
  }

  lemma SubsequenceKeepsCobertura(sub: seq<Measured>, files: seq<Measured>)
    requires Subsequence(sub, files) && Cobertura(files)
    ensures Cobertura(sub)
  {
    var at :| PicksOut(at, sub, files);
    forall f | f in sub ensures 0 <= f.covered <= f.total && f.total > 0 {
      var i :| 0 <= i < |sub| && sub[i] == f;
      assert files[at[i]] in files;
    }
  }

  /** pct */
  function Pct(covered: int, total: int): real {
    if total == 0 then 0.0 else covered as real / total as real * 100.0
  }

  lemma {:induction false} CoberturaTotals(files: seq<Measured>)
    requires Cobertura(files)
    ensures 0 <= Covered(files) <= TotalLines(files)
    decreases |files|
  {
    if files != [] {
      CoberturaParts(files);
      CoberturaTotals(files[..|files| - 1]);
    }
  }

  lemma PctInRange(covered: int, total: int)
    requires 0 <= covered <= total
    ensures 0.0 <= Pct(covered, total) <= 100.0
  {
    if total > 0 {
      var ratio := covered as real / total as real;
      assert ratio * total as real == covered as real;
      assert 0.0 <= ratio;
      assert ratio <= 1.0;
    }
  }

  lemma PctMeaning(covered: int, total: int)
    ensures total == 0 ==> Pct(covered, total) == 0.0
    ensures total > 0 ==> Pct(covered, total) * total as real == 100.0 * covered as real
  {
    if total > 0 {
      var ratio := covered as real / total as real;
      assert ratio * total as real == covered as real;
      assert ratio * 100.0 * total as real == 100.0 * (ratio * total as real);
    }
  }

  // ---- Which files a group selects --------------------------------------------

  /** The needle stands in the normalised path at the beginning of a segment. */
  ghost predicate StartsSegment(path: string, needle: string) {
    exists i :: 0 <= i <= |Norm(path)| && (i == 0 || Norm(path)[i - 1] == '/') && needle <= Norm(path)[i..]
  }

  lemma SegmentIsFound(path: string, needle: string, i: nat)
    requires i <= |Norm(path)| && (i == 0 || Norm(path)[i - 1] == '/') && needle <= Norm(path)[i..]
    ensures Has(path, needle)
  {
    var n := Norm(path);
    var value := "/" + n;
    assert value[i] == '/';
    assert value[i..] == "/" + n[i..];
    assert "/" + needle <= value[i..];
  }

  lemma FoundIsSegment(path: string, needle: string, i: nat)
    requires i <= |Norm(path)| + 1 && "/" + needle <= ("/" + Norm(path))[i..]
    ensures StartsSegment(path, needle)
  {
    var n := Norm(path);
    var rest := ("/" + n)[i..];
    assert rest[0] == '/' && rest[1..] == n[i..];
    assert needle == ("/" + needle)[1..];
    assert needle <= n[i..];
  }

  lemma HasMeaning(path: string, needle: string)
    ensures Has(path, needle) <==> StartsSegment(path, needle)
  {
    var value := "/" + Norm(path);
    if i :| 0 <= i <= |Norm(path)| && (i == 0 || Norm(path)[i - 1] == '/') && needle <= Norm(path)[i..] {
      SegmentIsFound(path, needle, i);
    }
    if "/" + needle <= value {
      assert value[0..] == value;
      FoundIsSegment(path, needle, 0);
    } else if i :| 0 <= i <= |value| && "/" + needle <= value[i..] {
      FoundIsSegment(path, needle, i);
    }
  }

  lemma GroupNames()
    ensures "backend" != "frontend" && "backend_admin" != "backend_platform" && "frontend_admin" != "frontend_ui"
  {
    assert "backend"[0] == 'b' && "frontend"[0] == 'f';
    assert |"backend_admin"| == 13 && |"backend_platform"| == 16;
    assert |"frontend_admin"| == 14 && |"frontend_ui"| == 11;
  }

  lemma BackendGroups(path: string)
    ensures InGroup("backend", "backend_admin", path) <==>
            || StartsSegment(path, "routers/admin") || StartsSegment(path, "services/admin")
            || StartsSegment(path, "schemas/admin")
    ensures InGroup("backend", "backend_platform", path) <==>
            || StartsSegment(path, "core/") || StartsSegment(path, "routers/") || StartsSegment(path, "services/")
            || StartsSegment(path, "models/") || StartsSegment(path, "schemas/")
  {
    GroupNames();
    HasMeaning(path, "routers/admin");
    HasMeaning(path, "services/admin");
    HasMeaning(path, "schemas/admin");
    HasMeaning(path, "core/");
    HasMeaning(path, "routers/");
    HasMeaning(path, "services/");
    HasMeaning(path, "models/");
    HasMeaning(path, "schemas/");
  }

  lemma FrontendGroups(path: string)
    ensures InGroup("frontend", "frontend_admin", path) <==>
            StartsSegment(path, "src/pages/admin/") || StartsSegment(path, "src/components/admin/")
    ensures InGroup("frontend", "frontend_ui", path) <==> StartsSegment(path, "src/")
  {
    GroupNames();
    HasMeaning(path, "src/pages/admin/");
    HasMeaning(path, "src/components/admin/");
    HasMeaning(path, "src/");
  }

  lemma NoOtherGroup(suite: string, group: string, path: string)
    requires suite == "backend" ==> group != "backend_admin" && group != "backend_platform"
    requires suite == "frontend" ==> group != "frontend_admin" && group != "frontend_ui"
    ensures !InGroup(suite, group, path)
  {
  }

  /** A group's name without any of its "_changed" suffixes. */
  function Root(group: string): string
    decreases |group|
  {
    if EndsWith(group, CHANGED) then Root(WithoutSuffix(group, CHANGED)) else group
  }

  /** A "_changed" group, stacked or not, is its root group's files filtered once;
      and the root group does not depend on the changed set. */
  lemma {:induction false} SelectionFromRoot(suite: string, group: string, files: seq<Measured>,
                                             changedFiles: set<string>)
    ensures var root := SelectGroup(suite, Root(group), files, {});
            SelectGroup(suite, group, files, changedFiles)
            == (if EndsWith(group, CHANGED) then FilterChanged(root, changedFiles) else root)
    decreases |group|
  {
    if EndsWith(group, CHANGED) {
      SelectionFromRoot(suite, WithoutSuffix(group, CHANGED), files, changedFiles);
      var root := SelectGroup(suite, Root(group), files, {});
      FilterChangedIdempotent(root, changedFiles);
    }
  }

  /** What a group asks of a file, whatever the suffixes of its name. */
  ghost predicate Qualifies(suite: string, group: string, changedFiles: set<string>, f: Measured) {
    && (EndsWith(group, CHANGED) ==> IsChanged(f.path, changedFiles))
    && (EndsWith(Root(group), OVERALL) || InGroup(suite, Root(group), f.path))
  }

  lemma {:induction false} RootHasNoSuffix(group: string)
    ensures !EndsWith(Root(group), CHANGED)
    decreases |group|
  {
    if EndsWith(group, CHANGED) {
      RootHasNoSuffix(WithoutSuffix(group, CHANGED));
    }
  }

  lemma RootMeaning(group: string)
    ensures Root(group + CHANGED) == Root(group) && !EndsWith(Root(group), CHANGED)
    ensures !EndsWith(group, CHANGED) ==> Root(group) == group
  {
    assert EndsWith(group + CHANGED, CHANGED) && WithoutSuffix(group + CHANGED, CHANGED) == group;
    RootHasNoSuffix(group);
  }

  lemma {:induction false} FilterGroupCounts(suite: string, group: string, files: seq<Measured>, f: Measured)
    ensures multiset(FilterGroup(suite, group, files))[f]
         == if InGroup(suite, group, f.path) then multiset(files)[f] else 0
    decreases |files|
  {
    if files != [] {
      var n := |files| - 1;
      FilterGroupCounts(suite, group, files[..n], f);
      assert files == files[..n] + [files[n]];
    }
  }

  lemma {:induction false} FilterChangedCounts(files: seq<Measured>, changedFiles: set<string>, f: Measured)
    ensures multiset(FilterChanged(files, changedFiles))[f]
         == if IsChanged(f.path, changedFiles) then multiset(files)[f] else 0
    decreases |files|
  {
    if files != [] {
      var n := |files| - 1;
      FilterChangedCounts(files[..n], changedFiles, f);
      assert files == files[..n] + [files[n]];
    }
  }

  /** Main result: a group selects exactly the files that qualify, each as often as it
      was measured. (That they keep their order is SelectionIsSubsequence.) */
  lemma SelectionExact(suite: string, group: string, files: seq<Measured>, changedFiles: set<string>, f: Measured)
    ensures multiset(SelectGroup(suite, group, files, changedFiles))[f]
         == if Qualifies(suite, group, changedFiles, f) then multiset(files)[f] else 0
  {
    RootHasNoSuffix(group);
    var root := SelectGroup(suite, Root(group), files, {});
    SelectionFromRoot(suite, group, files, changedFiles);
    FilterGroupCounts(suite, Root(group), files, f);
    FilterChangedCounts(root, changedFiles, f);
  }

  /** Main result: from Cobertura input, for every suite and group name, the totals
      of a "_changed" group stay within its base group's, the totals of any group
      only grow with the changed set, and every percentage lies in 0..100. */
  lemma ChangedGroupWithinBase(suite: string, group: string, files: seq<Measured>,
                               fewer: set<string>, more: set<string>)
    requires Cobertura(files) && fewer <= more
    ensures AtMost(SelectGroup(suite, group + CHANGED, files, more), SelectGroup(suite, group, files, more))
    ensures AtMost(SelectGroup(suite, group, files, fewer), SelectGroup(suite, group, files, more))
    ensures var selected := SelectGroup(suite, group, files, more);
            0.0 <= Pct(Covered(selected), TotalLines(selected)) <= 100.0
  {
    assert EndsWith(group + CHANGED, CHANGED) && WithoutSuffix(group + CHANGED, CHANGED) == group;
    var selected := SelectGroup(suite, group, files, more);
    SelectionIsSubsequence(suite, group, files, more);
    SubsequenceKeepsCobertura(selected, files);
    ChangedWithin(selected, more);
    CoberturaTotals(selected);
    PctInRange(Covered(selected), TotalLines(selected));
    var root := SelectGroup(suite, Root(group), files, {});
    SelectionIsSubsequence(suite, Root(group), files, {});
    SubsequenceKeepsCobertura(root, files);
    SelectionFromRoot(suite, group, files, fewer);
    SelectionFromRoot(suite, group, files, more);
    ChangedMonotone(root, fewer, more);
    CoberturaTotals(root);
  }

  // ---- read_cobertura --------------------------------------------------------

  /** A class element: its file or class name and the hit counts of its lines. */
  datatype ClassNode = ClassNode(filename: string, hits: seq<int>)

  function CountHit(hits: seq<int>): nat {
    if hits == [] then 0 else CountHit(hits[..|hits| - 1]) + (if hits[|hits| - 1] > 0 then 1 else 0)
  }

  predicate Keeps(node: ClassNode) { Norm(node.filename) != "" && |node.hits| > 0 }

  function MeasuredOf(node: ClassNode): Measured {
    Measured(Norm(node.filename), CountHit(node.hits), |node.hits|)
  }

  /** The nodes kept, in order, each as often as it occurs. */
  function FilesOf(nodes: seq<ClassNode>): seq<Measured> {
    if nodes == [] then []
    else FilesOf(nodes[..|nodes| - 1])
         + (if Keeps(nodes[|nodes| - 1]) then [MeasuredOf(nodes[|nodes| - 1])] else [])
  }

  lemma {:induction false} HitsBounded(hits: seq<int>)
    ensures CountHit(hits) <= |hits|
    decreases |hits|
  {
    if hits != [] {
      HitsBounded(hits[..|hits| - 1]);
    }
  }

  lemma {:induction false} CountHitMeaning(hits: seq<int>)
    ensures CountHit(hits) == |set k | 0 <= k < |hits| && hits[k] > 0|
    decreases |hits|
  {
    if hits != [] {
      var n := |hits| - 1;
      CountHitMeaning(hits[..n]);
      var before := set k | 0 <= k < n && hits[..n][k] > 0;
      var all := set k | 0 <= k < |hits| && hits[k] > 0;
      assert all == before + (if hits[n] > 0 then {n} else {});
    }
  }

  /** A class element is kept when it is named and has lines; then its lines are its
      total, and those hit at least once are covered. */
  lemma MeasuredMeaning(node: ClassNode)
    ensures Keeps(node) <==> Norm(node.filename) != "" && node.hits != []
    ensures var hit := set k | 0 <= k < |node.hits| && node.hits[k] > 0;
            MeasuredOf(node) == Measured(Norm(node.filename), |hit|, |node.hits|)
  {
    CountHitMeaning(node.hits);
  }

  lemma {:induction false} KeptNodeIsMeasured(nodes: seq<ClassNode>, k: nat)
    requires k < |nodes| && Keeps(nodes[k])
    ensures MeasuredOf(nodes[k]) in FilesOf(nodes)
    decreases |nodes|
  {
    var n := |nodes| - 1;
    if k < n {
      KeptNodeIsMeasured(nodes[..n], k);
    }
  }

  lemma {:induction false} MeasuredNodeWasKept(nodes: seq<ClassNode>, f: Measured) returns (k: nat)
    requires f in FilesOf(nodes)
    ensures k < |nodes| && Keeps(nodes[k]) && f == MeasuredOf(nodes[k])
    decreases |nodes|
  {
    var n := |nodes| - 1;
    k := n;
    if f in FilesOf(nodes[..n]) {
      k := MeasuredNodeWasKept(nodes[..n], f);
    }
  }

  /** Exactly the kept nodes are there, and no file claims more covered lines than
      it has. */
  lemma FilesOfMeaning(nodes: seq<ClassNode>)
    ensures Cobertura(FilesOf(nodes))
    ensures forall f :: f in FilesOf(nodes) <==>
              exists k :: 0 <= k < |nodes| && Keeps(nodes[k]) && f == MeasuredOf(nodes[k])
  {
    forall f | f in FilesOf(nodes)
      ensures 0 <= f.covered <= f.total && f.total > 0
      ensures exists k :: 0 <= k < |nodes| && Keeps(nodes[k]) && f == MeasuredOf(nodes[k])
    {
      var k := MeasuredNodeWasKept(nodes, f);
      HitsBounded(nodes[k].hits);
    }
    forall k | 0 <= k < |nodes| && Keeps(nodes[k]) ensures MeasuredOf(nodes[k]) in FilesOf(nodes) {
      KeptNodeIsMeasured(nodes, k);
    }
  }

  /** read_cobertura: named classes with at least one line, in document order, each
      with its hit lines counted. */
  method ReadCobertura(nodes: seq<ClassNode>) returns (files: seq<Measured>)
    ensures files == FilesOf(nodes)
    ensures Cobertura(files)
  {
    files := [];
    for i := 0 to |nodes|
      invariant files == FilesOf(nodes[..i])
    {
      var filename := Norm(nodes[i].filename);
      var total := |nodes[i].hits|;
      var covered := CountHit(nodes[i].hits);
      assert nodes[..i + 1][..i] == nodes[..i];
      if filename != "" && total > 0 {
        files := files + [Measured(filename, covered, total)];
      }
    }
    assert nodes[..|nodes|] == nodes;
    FilesOfMeaning(nodes);
  }
}
