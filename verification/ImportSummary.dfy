// The key=value printer for import job summaries (scripts/build_import_status_summary.py).
module ImportSummary {
  import opened Text
  import opened OrderedDict

  // ---- JSON values -----------------------------------------------------------

  /** A value json.load can give. `text` is what str() makes of a number. */
  datatype Json =
    | Null
    | Bool(b: bool)
    | Number(text: string, isZero: bool)
    | Str(s: string)
    | List(items: seq<Json>)
    | Obj(fields: OrderedDict.Dict<string, Json>)

  type Dict = OrderedDict.Dict<string, Json>

  // ---- _clean ----------------------------------------------------------------

  function TokenEnd(s: string): nat
    ensures TokenEnd(s) <= |s|
  {
    if s == "" || IsSpace(s[0]) then 0 else 1 + TokenEnd(s[1..])
  }

  /** s.split(): the maximal runs without whitespace. */
  function Words(s: string): seq<string>
    decreases |s|
  {
    if s == "" then []
    else if IsSpace(s[0]) then Words(s[1..])
    else [s[..TokenEnd(s)]] + Words(s[TokenEnd(s)..])
  }

  function CleanText(s: string): string { Join(Words(s), ' ') }

  /** str(value) on what is neither a bool nor None; `render` stands for Python's
      text of lists and dicts. */
  function TextOf(render: Json -> string, v: Json): string {
    match v case Str(s) => s case Number(text, _) => text case _ => render(v)
  }

  /** _clean */
  function Clean(render: Json -> string, v: Json): string {
    match v
    case Bool(b) => if b then "true" else "false"
    case Null => ""
    case _ => CleanText(TextOf(render, v))
  }

  ghost predicate GoodWord(w: string) { w != "" && forall c :: c in w ==> !IsSpace(c) }

  lemma {:induction false} TokenIsWord(s: string)
    ensures forall c :: c in s[..TokenEnd(s)] ==> !IsSpace(c)
    ensures TokenEnd(s) < |s| ==> IsSpace(s[TokenEnd(s)])
    decreases |s|
  {
    if s != "" && !IsSpace(s[0]) {
      TokenIsWord(s[1..]);
      assert s[..TokenEnd(s)] == [s[0]] + s[1..][..TokenEnd(s[1..])];
    }
  }

  lemma {:induction false} WordsAreGood(s: string)
    ensures forall w :: w in Words(s) ==> GoodWord(w)
    decreases |s|
  {
    if s != "" {
      if IsSpace(s[0]) {
        WordsAreGood(s[1..]);
      } else {
        TokenIsWord(s);
        WordsAreGood(s[TokenEnd(s)..]);
      }
    }
  }

  lemma {:induction false} TokenEndOf(w: string, rest: string)
    requires forall c :: c in w ==> !IsSpace(c)
    requires rest == "" || IsSpace(rest[0])
    ensures TokenEnd(w + rest) == |w|
    decreases |w|
  {
    if w != "" {
      assert (w + rest)[1..] == w[1..] + rest;
      assert w[0] in w && forall c :: c in w[1..] ==> c in w;
      TokenEndOf(w[1..], rest);
    } else {
      assert w + rest == rest;
    }
  }

  lemma WordsStep(w: string, rest: string)
    requires GoodWord(w) && (rest == "" || IsSpace(rest[0]))
    ensures Words(w + rest) == [w] + Words(rest)
  {
    TokenEndOf(w, rest);
    assert w[0] in w && (w + rest)[0] == w[0];
    assert (w + rest)[..|w|] == w && (w + rest)[|w|..] == rest;
  }

  lemma {:induction false} WordsOfJoin(words: seq<string>)
    requires forall w :: w in words ==> GoodWord(w)
    ensures Words(Join(words, ' ')) == words
    decreases |words|
  {
    if words != [] {
      var w, more := words[0], words[1..];
      assert w in words && forall v :: v in more ==> v in words;
      WordsOfJoin(more);
      var rest := if more == [] then "" else " " + Join(more, ' ');
      assert Join(words, ' ') == w + rest;
      assert more != [] ==> rest[1..] == Join(more, ' ') && IsSpace(rest[0]);
      WordsStep(w, rest);
    }
  }

  lemma {:induction false} JoinedWordsChars(words: seq<string>)
    requires forall w :: w in words ==> GoodWord(w)
    ensures forall c :: c in Join(words, ' ') ==> c == ' ' || !IsSpace(c)
    decreases |words|
  {
    if words != [] {
      assert words[0] in words && forall v :: v in words[1..] ==> v in words;
      JoinedWordsChars(words[1..]);
    }
  }

  lemma WordsOfOneWord(w: string)
    requires GoodWord(w)
    ensures CleanText(w) == w
  {
    WordsOfJoin([w]);
    assert Join([w], ' ') == w;
  }

  /** Cleaning is idempotent and leaves no whitespace but single spaces: no line
      separator of any kind. */
  lemma CleanIsOneLine(render: Json -> string, v: Json)
    ensures forall c :: c in Clean(render, v) ==> c == ' ' || !IsSpace(c)
    ensures Clean(render, Str(Clean(render, v))) == Clean(render, v)
  {
    match v
    case Bool(b) =>
      var w := if b then "true" else "false";
      assert forall i :: 0 <= i < |w| ==> 'a' <= w[i] <= 'z';
      WordsOfOneWord(w);
    case Null =>
    case _ =>
      var words := Words(TextOf(render, v));
      WordsAreGood(TextOf(render, v));
      WordsOfJoin(words);
      JoinedWordsChars(words);
  }

  /** The characters of a text that are not whitespace, each with whether whitespace
      (or the beginning) comes before it. */
  ghost function Marks(s: string, gap: bool): seq<(char, bool)>
    decreases |s|
  {
    if s == "" then [] else if IsSpace(s[0]) then Marks(s[1..], true) else [(s[0], gap)] + Marks(s[1..], false)
  }

  /** The marks of words that stand apart. */
  ghost function MarksOfWords(words: seq<string>): seq<(char, bool)> {
    if words == [] then [] else Marks(words[0], true) + MarksOfWords(words[1..])
  }

  lemma {:induction false} MarksAfterWord(w: string, rest: string, gap: bool)
    requires forall c :: c in w ==> !IsSpace(c)
    requires rest == "" || IsSpace(rest[0])
    ensures Marks(w + rest, gap) == Marks(w, gap) + Marks(rest, true)
    decreases |w|
  {
    if w == "" {
      assert w + rest == rest;
    } else {
      assert (w + rest)[1..] == w[1..] + rest && w[0] in w && forall c :: c in w[1..] ==> c in w;
      MarksAfterWord(w[1..], rest, false);
    }
  }

  lemma {:induction false} MarksOfSplit(s: string)
    ensures Marks(s, true) == MarksOfWords(Words(s))
    decreases |s|
  {
    if s != "" {
      if IsSpace(s[0]) {
        MarksOfSplit(s[1..]);
      } else {
        TokenIsWord(s);
        var w, rest := s[..TokenEnd(s)], s[TokenEnd(s)..];
        assert s == w + rest;
        MarksAfterWord(w, rest, true);
        MarksOfSplit(rest);
        assert Words(s) == [w] + Words(rest);
      }
    }
  }

  lemma {:induction false} MarksOfJoin(words: seq<string>)
    requires forall w :: w in words ==> GoodWord(w)
    ensures Marks(Join(words, ' '), true) == MarksOfWords(words)
    decreases |words|
  {
    if words != [] {
      var w, more := words[0], words[1..];
      assert w in words && forall v :: v in more ==> v in words;
      MarksOfJoin(more);
      var rest := if more == [] then "" else " " + Join(more, ' ');
      assert Join(words, ' ') == w + rest;
      MarksAfterWord(w, rest, true);
      if more != [] { assert rest[1..] == Join(more, ' ') && IsSpace(rest[0]); }
    }
  }

  /** Nothing at either end, nothing doubled: every space is followed by a character
      that is none, and none comes first. */
  ghost predicate SingleSpaced(s: string) {
    forall i :: 0 <= i < |s| && IsSpace(s[i]) ==> s[i] == ' ' && 0 < i < |s| - 1 && !IsSpace(s[i + 1])
  }

  lemma {:induction false} JoinIsSingleSpaced(words: seq<string>)
    requires forall w :: w in words ==> GoodWord(w)
    ensures SingleSpaced(Join(words, ' ')) && (words != [] ==> Join(words, ' ') != "" && !IsSpace(Join(words, ' ')[0]))
    decreases |words|
  {
    if words != [] {
      var w, more := words[0], words[1..];
      assert w in words && w[0] in w && forall v :: v in more ==> v in words;
      JoinIsSingleSpaced(more);
      if more != [] {
        var tail := Join(more, ' ');
        var joined := w + " " + tail;
        assert Join(words, ' ') == joined;
        forall i | 0 <= i < |joined| && IsSpace(joined[i])
          ensures joined[i] == ' ' && 0 < i < |joined| - 1 && !IsSpace(joined[i + 1])
        {
          if i > |w| {
            assert joined[i] == tail[i - |w| - 1];
            assert joined[i + 1] == tail[i - |w|];
          } else if i == |w| {
            assert joined[i + 1] == tail[0];
          }
        }
      } else {
        forall i | 0 <= i < |w| ensures !IsSpace(w[i]) { assert w[i] in w; }
      }
    }
  }

  /** What is printed for a value: a word for a truth value, nothing for None, and
      else the value's text, character for character, with each stretch of whitespace
      between two of them made one space and the rest dropped. */
  lemma CleanMeaning(render: Json -> string, v: Json)
    ensures v == Bool(true) ==> Clean(render, v) == "true"
    ensures v == Bool(false) ==> Clean(render, v) == "false"
    ensures v == Null ==> Clean(render, v) == ""
    ensures !v.Bool? && !v.Null? ==>
              var text := if v.Str? then v.s else if v.Number? then v.text else render(v);
              SingleSpaced(Clean(render, v)) && Marks(Clean(render, v), true) == Marks(text, true)
  {
    if !v.Bool? && !v.Null? {
      var text := TextOf(render, v);
      WordsAreGood(text);
      MarksOfSplit(text);
      MarksOfJoin(Words(text));
      JoinIsSingleSpaced(Words(text));
    }
  }

  // ---- Reading the payload ---------------------------------------------------

  predicate Truthy(v: Json): (r: bool)
    ensures v.Null? ==> !r
    ensures v.Bool? ==> (r <==> v.b)
    ensures v.Number? ==> (r <==> !v.isZero)
    ensures v.Str? ==> (r <==> |v.s| > 0)
    ensures v.List? ==> (r <==> |v.items| > 0)
    ensures v.Obj? ==> (r <==> |v.fields.keys| > 0)
  {
    match v
    case Null => false
    case Bool(b) => b
    case Number(_, isZero) => !isZero
    case Str(s) => s != ""
    case List(items) => items != []
    case Obj(fields) => fields.keys != []
  }

  /** a or b */
  function Or(a: Json, b: Json): Json { if Truthy(a) then a else b }

  /** _mapping */
  function Mapping(v: Json): Dict { if v.Obj? then v.fields else Dict([], map[]) }

  /** _first */
  function First(d: Dict, keys: seq<string>, default: Json): Json {
    if keys == [] then default
    else if GetOr(d, keys[0], Null) != Null then GetOr(d, keys[0], Null)
    else First(d, keys[1..], default)
  }

  function Details(payload: Dict): Dict { Mapping(GetOr(payload, "step_details", Null)) }

  function Diff(payload: Dict): Dict {
    var details := Details(payload);
    Mapping(Or(GetOr(details, "import_diff", Null), Or(GetOr(details, "import_summary", Null),
            Or(GetOr(payload, "import_diff", Null), GetOr(payload, "import_summary", Null)))))
  }

  function Digit(n: nat): char
    requires n < 10
  {
    '0' + n as char
  }

  /** str(n) */
  function Decimal(n: nat): string {
    if n < 10 then [Digit(n)] else Decimal(n / 10) + [Digit(n % 10)]
  }

  function Len(n: nat): Json { Number(Decimal(n), n == 0) }

  function ChangedCount(payload: Dict, diff: Dict): Json {
    var direct := First(diff, ["changed_place_ids_count", "changed_ids_count"], Null);
    if direct != Null then direct else
    var ids := First(Details(payload), ["changed_place_ids"], GetOr(diff, "changed_place_ids", Null));
    if ids.List? then Len(|ids.items|) else Len(0)
  }

  function Readiness(payload: Dict): Json {
    var pipeline := Mapping(GetOr(Details(payload), "unified_pipeline", Null));
    First(payload, ["readiness_score"],
          First(Details(payload), ["readiness_score"], GetOr(pipeline, "readiness_score", Str(""))))
  }

  function Warnings(payload: Dict): seq<Json> {
    var raw := GetOr(Details(payload), "warnings", List([]));
    if raw.List? then raw.items else []
  }

  const ACTION_KEYS := [
    "current_step", "launch_status", "can_run", "can_retry", "can_cancel", "can_publish", "can_unpublish"]

  const PROGRESS_KEYS := [
    "places_total", "places_published", "places_unpublished", "places_found", "places_saved", "scopes_total",
    "scopes_succeeded", "failed_items", "last_error"]

  const TOP_KEYS := ACTION_KEYS + PROGRESS_KEYS

  const DIFF_KEYS := [
    "created", "updated", "unchanged", "rejected", "hidden", "needs_review", "meaningful_changes",
    "missing_from_source"]

  const HEAD_KEYS := [
    "job_status", "city_active", "readiness_score", "changed_place_ids_count", "warnings_count",
    "warning_1_step", "warning_1_error"]

  /** The value build_summary gives each of its keys; a later update wins. */
  function BaseValue(payload: Dict, key: string): Json {
    if key in DIFF_KEYS then GetOr(Diff(payload), key, Len(0))
    else if key in TOP_KEYS then GetOr(payload, key, Str(""))
    else if key == "job_status" then First(payload, ["status", "job_status"], Str(""))
    else if key == "city_active" then First(payload, ["is_city_active", "city_active"], Str(""))
    else if key == "readiness_score" then Readiness(payload)
    else if key == "changed_place_ids_count" then ChangedCount(payload, Diff(payload))
    else if key == "warnings_count" then Len(|Warnings(payload)|)
    else Str("")
  }

  const BASE_KEYS := HEAD_KEYS + TOP_KEYS + DIFF_KEYS

  /** The display build_summary starts from. */
  function HeadEntries(payload: Dict): seq<(string, Json)> {
    [("job_status", First(payload, ["status", "job_status"], Str(""))),
     ("city_active", First(payload, ["is_city_active", "city_active"], Str(""))),
     ("readiness_score", Readiness(payload)),
     ("changed_place_ids_count", ChangedCount(payload, Diff(payload))),
     ("warnings_count", Len(|Warnings(payload)|)),
     ("warning_1_step", Str("")),
     ("warning_1_error", Str(""))]
  }

  ghost predicate Disjoint(a: seq<string>, b: seq<string>) { forall k :: k in a ==> k !in b }

  /** Where a key stands in the summary; only the fixed keys matter. */
  function Position(k: string): nat {
    match |k|
    case 6 => 27
    case 7 => if k[1] == 'a' then 9 else if k[1] == 'r' then 23 else 24
    case 8 => 26
    case 9 => if k[0] == 'c' then 10 else 25
    case 10 => if k[0] == 'j' then 0 else if k[0] == 'c' then 11 else 22
    case 11 => if k[1] == 'i' then 1 else 12
    case 12 =>
      if k[0] == 'c' then 7 else if k[0] == 'f' then 21 else if k[0] == 's' then 19 else if k[0] == 'n' then 28
      else if k[7] == 't' then 14 else if k[7] == 'f' then 17 else 18
    case 13 => if k[0] == 'l' then 8 else 13
    case 14 => if k[7] == 's' then 4 else 5
    case 15 => if k[0] == 'r' then 2 else 6
    case 16 => if k[0] == 'p' then 15 else 20
    case 18 => if k[0] == 'p' then 16 else 29
    case 19 => 30
    case _ => 3
  }

  lemma HeadPositions()
    ensures forall i :: 0 <= i < |HEAD_KEYS| ==> Position(HEAD_KEYS[i]) == i
  {
  }

  lemma ActionPositions()
    ensures forall i :: 0 <= i < |ACTION_KEYS| ==> Position(ACTION_KEYS[i]) == 7 + i
  {
  }

  lemma ProgressPositions()
    ensures forall i :: 0 <= i < |PROGRESS_KEYS| ==> Position(PROGRESS_KEYS[i]) == 14 + i
  {
  }

  lemma DiffPositions()
    ensures forall i :: 0 <= i < |DIFF_KEYS| ==> Position(DIFF_KEYS[i]) == 23 + i
  {
  }

  /** No key occurs twice in the literal and the two updates. */
  lemma KeysDistinct()
    ensures Distinct(HEAD_KEYS) && Distinct(TOP_KEYS) && Distinct(DIFF_KEYS)
    ensures Disjoint(TOP_KEYS, HEAD_KEYS) && Disjoint(DIFF_KEYS, HEAD_KEYS) && Disjoint(DIFF_KEYS, TOP_KEYS)
  {
    HeadPositions();
    ActionPositions();
    ProgressPositions();
    DiffPositions();
    assert forall i :: 0 <= i < |TOP_KEYS| ==> Position(TOP_KEYS[i]) == 7 + i;
  }

  lemma HeadValues(payload: Dict, i: nat)
    requires i < |HEAD_KEYS|
    ensures HeadEntries(payload)[i] == (HEAD_KEYS[i], BaseValue(payload, HEAD_KEYS[i]))
  {
    KeysDistinct();
    assert HEAD_KEYS[i] in HEAD_KEYS;
    HeadPositions();
  }

  /** A part of the summary: some of the fixed keys with their values. */
  ghost predicate IsPart(payload: Dict, part: Dict, keys: seq<string>) {
    && WellFormed(part) && part.keys == keys
    && forall k :: k in keys ==> Has(part, k, BaseValue(payload, k))
  }

  lemma EntriesArePart(payload: Dict, entries: seq<(string, Json)>, keys: seq<string>)
    requires Distinct(keys) && |entries| == |keys|
    requires forall i :: 0 <= i < |entries| ==> entries[i] == (keys[i], BaseValue(payload, keys[i]))
    ensures IsPart(payload, Display(entries), keys)
  {
    DisplayOrder(entries);
    assert KeysOf(entries) == keys;
    forall k | k in keys ensures Has(Display(entries), k, BaseValue(payload, k)) {
      var i :| 0 <= i < |keys| && keys[i] == k;
      assert Has(Display(entries), entries[i].0, entries[i].1);
    }
  }

  lemma HeadIsPart(payload: Dict)
    ensures IsPart(payload, Display(HeadEntries(payload)), HEAD_KEYS)
  {
    var entries := HeadEntries(payload);
    KeysDistinct();
    forall i | 0 <= i < |entries| ensures entries[i] == (HEAD_KEYS[i], BaseValue(payload, HEAD_KEYS[i])) {
      HeadValues(payload, i);
    }
    EntriesArePart(payload, entries, HEAD_KEYS);
  }

  lemma FromKeysIsPart(payload: Dict, keys: seq<string>, value: string -> Json)
    requires Distinct(keys) && forall k :: k in keys ==> value(k) == BaseValue(payload, k)
    ensures IsPart(payload, FromKeys(keys, value), keys)
  {
    FromKeysMeaning(keys, value);
  }

  lemma PartsJoin(payload: Dict, first: Dict, second: Dict, a: seq<string>, b: seq<string>)
    requires IsPart(payload, first, a) && IsPart(payload, second, b) && Disjoint(b, a)
    ensures IsPart(payload, Merge(first, second), a + b)
  {
    UpdateWithNew(first, second);
  }

  function TopValue(payload: Dict): string -> Json { k => GetOr(payload, k, Str("")) }

  function DiffValue(diff: Dict): string -> Json { k => GetOr(diff, k, Len(0)) }

  lemma UpdatesAreParts(payload: Dict)
    ensures IsPart(payload, FromKeys(TOP_KEYS, TopValue(payload)), TOP_KEYS)
    ensures IsPart(payload, FromKeys(DIFF_KEYS, DiffValue(Diff(payload))), DIFF_KEYS)
  {
    KeysDistinct();
    FromKeysIsPart(payload, TOP_KEYS, TopValue(payload));
    FromKeysIsPart(payload, DIFF_KEYS, DiffValue(Diff(payload)));
  }

  lemma DisjointFromBoth(a: seq<string>, b: seq<string>, c: seq<string>)
    requires Disjoint(c, a) && Disjoint(c, b)
    ensures Disjoint(c, a + b)
  {
  }

  /** build_summary: a dict display and two updates. They do not overlap, so the
      summary has each fixed key once, in the order of the source, with its value. */
  method BuildSummary(payload: Dict) returns (summary: Dict)
    ensures IsPart(payload, summary, BASE_KEYS)
  {
    var diff := Diff(payload);
    KeysDistinct();
    HeadIsPart(payload);
    UpdatesAreParts(payload);
    summary := Display(HeadEntries(payload));
    PartsJoin(payload, summary, FromKeys(TOP_KEYS, TopValue(payload)), HEAD_KEYS, TOP_KEYS);
    summary := Merge(summary, FromKeys(TOP_KEYS, TopValue(payload)));
    DisjointFromBoth(HEAD_KEYS, TOP_KEYS, DIFF_KEYS);
    PartsJoin(payload, summary, FromKeys(DIFF_KEYS, DiffValue(diff)), HEAD_KEYS + TOP_KEYS, DIFF_KEYS);
    summary := Merge(summary, FromKeys(DIFF_KEYS, DiffValue(diff)));
  }

  // ---- Warnings --------------------------------------------------------------

  function StepKey(index: nat): string { "warning_" + Decimal(index) + "_step" }

  function ErrorKey(index: nat): string { "warning_" + Decimal(index) + "_error" }

  function StepOf(item: Json): Json { GetOr(Mapping(item), "step", Str("")) }

  function ErrorOf(item: Json): Json {
    var data := Mapping(item);
    Or(GetOr(data, "error", Null), Or(GetOr(data, "message", Null), Or(GetOr(data, "detail", Null),
       if item.Str? then item else Str(""))))
  }

  /** The entries of all _warning_item dicts: two for each warning, numbered from 1. */
  function WarningEntry(warnings: seq<Json>, k: nat): (string, Json)
    requires k < 2 * |warnings|
  {
    var item := warnings[k / 2];
    if k % 2 == 0 then (StepKey(k / 2 + 1), StepOf(item)) else (ErrorKey(k / 2 + 1), ErrorOf(item))
  }

  function WarningEntries(warnings: seq<Json>): seq<(string, Json)> {
    seq(2 * |warnings|, k requires 0 <= k < 2 * |warnings| => WarningEntry(warnings, k))
  }

  /** _warning_lines */
  function WarningLines(warnings: seq<Json>): Dict { Display(WarningEntries(warnings)) }

  lemma DigitInjective(a: nat, b: nat)
    requires a < 10 && b < 10 && Digit(a) == Digit(b)
    ensures a == b
  {
  }

  lemma {:induction false} DecimalDigits(n: nat)
    ensures Decimal(n) != "" && (|Decimal(n)| == 1 <==> n < 10)
    ensures forall c :: c in Decimal(n) ==> '0' <= c <= '9'
    decreases n
  {
    if n >= 10 {
      DecimalDigits(n / 10);
    }
  }

  lemma {:induction false} DecimalInjective(m: nat, n: nat)
    requires Decimal(m) == Decimal(n)
    ensures m == n
    decreases m
  {
    DecimalDigits(m);
    DecimalDigits(n);
    var s, t := Decimal(m), Decimal(n);
    if m >= 10 {
      assert s[..|s| - 1] == Decimal(m / 10) && t[..|t| - 1] == Decimal(n / 10);
      DecimalInjective(m / 10, n / 10);
    }
    assert s[|s| - 1] == Digit(m % 10) && t[|t| - 1] == Digit(n % 10);
    DigitInjective(m % 10, n % 10);
  }

  /** The number a numeral stands for. */
  ghost function NumberOf(digits: string): int {
    if digits == "" then 0 else 10 * NumberOf(digits[..|digits| - 1]) + (digits[|digits| - 1] as int - '0' as int)
  }

  /** The plain decimal numeral of n: digits only, no leading zero. */
  ghost predicate IsNumeral(text: string, n: nat) {
    && text != "" && NumberOf(text) == n
    && (forall i :: 0 <= i < |text| ==> '0' <= text[i] <= '9')
    && (text[0] == '0' ==> text == "0")
  }

  lemma {:induction false} DecimalIsNumeral(n: nat)
    ensures IsNumeral(Decimal(n), n)
    decreases n
  {
    if n >= 10 {
      DecimalIsNumeral(n / 10);
      var init, text := Decimal(n / 10), Decimal(n);
      assert text[..|text| - 1] == init && text[0] == init[0];
      if text[0] == '0' { assert init == "0" && NumberOf(init[..0]) == 0; }
    } else {
      assert Decimal(n)[..0] == "" && NumberOf("") == 0;
    }
  }

  /** All the numbered keys are pairwise distinct, for any number of warnings. */
  lemma WarningKeysDistinct(i: nat, j: nat)
    ensures StepKey(i) != ErrorKey(j)
    ensures StepKey(i) == StepKey(j) <==> i == j
    ensures ErrorKey(i) == ErrorKey(j) <==> i == j
  {
    var a, b := StepKey(i), ErrorKey(j);
    assert a[|a| - 1] == 'p' && b[|b| - 1] == 'r';
    if StepKey(i) == StepKey(j) {
      assert StepKey(i)[8..|StepKey(i)| - 5] == Decimal(i);
      assert StepKey(j)[8..|StepKey(j)| - 5] == Decimal(j);
      DecimalInjective(i, j);
    }
    if ErrorKey(i) == ErrorKey(j) {
      assert ErrorKey(i)[8..|ErrorKey(i)| - 6] == Decimal(i);
      assert ErrorKey(j)[8..|ErrorKey(j)| - 6] == Decimal(j);
      DecimalInjective(i, j);
    }
  }

  lemma WarningEntriesDistinct(warnings: seq<Json>)
    ensures Distinct(KeysOf(WarningEntries(warnings)))
  {
    forall i, j | 0 <= i < j < 2 * |warnings| ensures WarningEntry(warnings, i).0 != WarningEntry(warnings, j).0 {
      WarningKeysDistinct(i / 2 + 1, j / 2 + 1);
      WarningKeysDistinct(j / 2 + 1, i / 2 + 1);
    }
  }

  /** Every warning has its two lines, whatever the others are, in their order. */
  lemma WarningLinesMeaning(warnings: seq<Json>)
    ensures WellFormed(WarningLines(warnings)) && WarningLines(warnings).keys == KeysOf(WarningEntries(warnings))
    ensures forall k :: 0 <= k < 2 * |warnings| ==>
              Has(WarningLines(warnings), WarningEntry(warnings, k).0, WarningEntry(warnings, k).1)
    ensures forall key :: key in WarningLines(warnings).values ==>
              exists k :: 0 <= k < 2 * |warnings| && WarningEntry(warnings, k).0 == key
  {
    var entries := WarningEntries(warnings);
    WarningEntriesDistinct(warnings);
    DisplayOrder(entries);
    forall k | 0 <= k < 2 * |warnings|
      ensures Has(WarningLines(warnings), WarningEntry(warnings, k).0, WarningEntry(warnings, k).1)
    {
      assert entries[k] == WarningEntry(warnings, k);
    }
    forall key | key in WarningLines(warnings).values
      ensures exists k :: 0 <= k < 2 * |warnings| && WarningEntry(warnings, k).0 == key
    {
      var i :| 0 <= i < |WarningLines(warnings).keys| && WarningLines(warnings).keys[i] == key;
      assert WarningEntry(warnings, i).0 == key;
    }
  }

  // ---- Printing and parsing --------------------------------------------------

  /** One line of the output, without its newline. */
  function Line(render: Json -> string, d: Dict, i: nat): string
    requires i < |d.keys|
  {
    d.keys[i] + "=" + Clean(render, GetOr(d, d.keys[i], Null))
  }

  function Terminated(lines: seq<string>): string {
    if lines == [] then "" else lines[0] + "\n" + Terminated(lines[1..])
  }

  /** The text main() writes. */
  function Print(render: Json -> string, d: Dict): string {
    Terminated(seq(|d.keys|, i requires 0 <= i < |d.keys| => Line(render, d, i)))
  }

  function FindEq(line: string): nat
    ensures FindEq(line) <= |line|
  {
    if line == "" || line[0] == '=' then 0 else 1 + FindEq(line[1..])
  }

  /** line.split("=", 1) */
  function ParseLine(line: string): (string, string) {
    var k := FindEq(line);
    if k < |line| then (line[..k], line[k + 1..]) else (line, "")
  }

  /** The output's lines; the last newline ends a line and starts none. */
  function Lines(output: string): seq<string> {
    var pieces := Split(output, '\n');
    pieces[..|pieces| - 1]
  }

  /** Each line, split at its first '='. */
  function Parse(output: string): seq<(string, string)> {
    var lines := Lines(output);
    seq(|lines|, i requires 0 <= i < |lines| => ParseLine(lines[i]))
  }

  /** A key that cannot be confused with the rest of its line. */
  ghost predicate PlainKey(key: string) { forall i :: 0 <= i < |key| ==> key[i] != '=' && key[i] != '\n' }

  lemma {:induction false} FindEqAfterKey(key: string, value: string)
    requires PlainKey(key)
    ensures FindEq(key + "=" + value) == |key|
    decreases |key|
  {
    var line := key + "=" + value;
    if key != "" {
      assert line[1..] == key[1..] + "=" + value;
      FindEqAfterKey(key[1..], value);
    }
  }

  lemma {:induction false} LinesOfTerminated(lines: seq<string>)
    requires forall l :: l in lines ==> '\n' !in l
    ensures Split(Terminated(lines), '\n') == lines + [""]
    decreases |lines|
  {
    if lines != [] {
      assert lines[0] in lines && forall l :: l in lines[1..] ==> l in lines;
      LinesOfTerminated(lines[1..]);
      SplitWhole(lines[0], '\n');
      SplitAppend(lines[0], Terminated(lines[1..]), '\n');
      assert Terminated(lines) == lines[0] + ['\n'] + Terminated(lines[1..]);
    }
  }

  lemma LineHasNoNewline(render: Json -> string, d: Dict, i: nat)
    requires i < |d.keys| && PlainKey(d.keys[i])
    ensures '\n' !in Line(render, d, i)
  {
    CleanIsOneLine(render, GetOr(d, d.keys[i], Null));
  }

  lemma ParsedLine(key: string, value: string)
    requires PlainKey(key)
    ensures ParseLine(key + "=" + value) == (key, value)
  {
    FindEqAfterKey(key, value);
    var line := key + "=" + value;
    assert line[..|key|] == key && line[|key| + 1..] == value;
  }

  /** The lines of the output are those of the dict. */
  lemma PrintedLines(render: Json -> string, d: Dict)
    requires forall i :: 0 <= i < |d.keys| ==> PlainKey(d.keys[i])
    ensures |Lines(Print(render, d))| == |d.keys|
    ensures forall i :: 0 <= i < |d.keys| ==> Lines(Print(render, d))[i] == Line(render, d, i)
  {
    var lines := seq(|d.keys|, i requires 0 <= i < |d.keys| => Line(render, d, i));
    forall l | l in lines ensures '\n' !in l {
      var i :| 0 <= i < |lines| && lines[i] == l;
      LineHasNoNewline(render, d, i);
    }
    LinesOfTerminated(lines);
    assert Lines(Print(render, d)) == lines;
  }

  /** Main result: printing and parsing a summary gives back one entry per key, in
      order, with the cleaned value. */
  lemma PrintParseRoundTrip(render: Json -> string, d: Dict)
    requires forall i :: 0 <= i < |d.keys| ==> PlainKey(d.keys[i])
    ensures |Parse(Print(render, d))| == |d.keys| == |Lines(Print(render, d))|
    ensures forall i :: 0 <= i < |d.keys| ==>
              Lines(Print(render, d))[i] == d.keys[i] + "=" + Clean(render, GetOr(d, d.keys[i], Null))
    ensures forall i :: 0 <= i < |d.keys| ==>
              Parse(Print(render, d))[i] == (d.keys[i], Clean(render, GetOr(d, d.keys[i], Null)))
  {
    PrintedLines(render, d);
    forall i | 0 <= i < |d.keys|
      ensures Parse(Print(render, d))[i] == (d.keys[i], Clean(render, GetOr(d, d.keys[i], Null)))
    {
      ParsedLine(d.keys[i], Clean(render, GetOr(d, d.keys[i], Null)));
    }
  }

  // ---- The program's own keys ------------------------------------------------

  lemma FirstHeadKeysPlain()
    ensures forall i :: 0 <= i < 4 ==> PlainKey(HEAD_KEYS[i])
  {
  }

  lemma LastHeadKeysPlain()
    ensures forall i :: 4 <= i < |HEAD_KEYS| ==> PlainKey(HEAD_KEYS[i])
  {
  }

  lemma ActionKeysPlain()
    ensures forall i :: 0 <= i < |ACTION_KEYS| ==> PlainKey(ACTION_KEYS[i])
  {
  }

  lemma ProgressKeysPlain()
    ensures forall i :: 0 <= i < |PROGRESS_KEYS| ==> PlainKey(PROGRESS_KEYS[i])
  {
  }

  lemma DiffKeysPlain()
    ensures forall i :: 0 <= i < |DIFF_KEYS| ==> PlainKey(DIFF_KEYS[i])
  {
  }

  lemma InConcat(a: seq<string>, b: seq<string>, k: string)
    ensures k in a + b <==> k in a || k in b
  {
  }

  lemma BaseKeyPlain(k: string)
    requires k in BASE_KEYS
    ensures PlainKey(k)
  {
    FirstHeadKeysPlain();
    LastHeadKeysPlain();
    ActionKeysPlain();
    ProgressKeysPlain();
    DiffKeysPlain();
    InConcat(HEAD_KEYS + TOP_KEYS, DIFF_KEYS, k);
    InConcat(HEAD_KEYS, TOP_KEYS, k);
    InConcat(ACTION_KEYS, PROGRESS_KEYS, k);
  }

  lemma WarningKeysPlain(i: nat)
    ensures PlainKey(StepKey(i)) && PlainKey(ErrorKey(i))
  {
    DecimalDigits(i);
    var digits := Decimal(i);
    assert forall j :: 0 <= j < |digits| ==> digits[j] in digits;
  }

  lemma SummaryKeysPlain(base: Dict, warnings: seq<Json>, merged: Dict)
    requires WellFormed(base) && base.keys == BASE_KEYS && WellFormed(merged)
    requires forall k :: k in merged.values ==> k in base.values || k in WarningLines(warnings).values
    ensures forall i :: 0 <= i < |merged.keys| ==> PlainKey(merged.keys[i])
  {
    WarningLinesMeaning(warnings);
    forall i | 0 <= i < |merged.keys| ensures PlainKey(merged.keys[i]) {
      var k := merged.keys[i];
      assert k in merged.keys;
      if k in base.values {
        BaseKeyPlain(k);
      } else {
        var n :| 0 <= n < 2 * |warnings| && WarningEntry(warnings, n).0 == k;
        WarningKeysPlain(n / 2 + 1);
      }
    }
  }

  // ---- What the payload's own fields say -------------------------------------

  /** d.get(key) */
  ghost function Field(d: Dict, key: string): Json { if key in d.values then d.values[key] else Null }

  /** The object under a key, or an empty one. */
  ghost function Sub(d: Dict, key: string): Dict {
    if Field(d, key).Obj? then Field(d, key).fields else Dict([], map[])
  }

  /** v is the first of the candidates that is not None, or the default. */
  ghost predicate FirstPresent(candidates: seq<Json>, default: Json, v: Json) {
    || (exists i :: 0 <= i < |candidates| && candidates[i] == v && v != Null
          && forall j :: 0 <= j < i ==> candidates[j] == Null)
    || (v == default && forall j :: 0 <= j < |candidates| ==> candidates[j] == Null)
  }

  /** v is the first of the candidates that counts as true, or the default. */
  ghost predicate FirstTruthy(candidates: seq<Json>, default: Json, v: Json) {
    || (exists i :: 0 <= i < |candidates| && candidates[i] == v && Truthy(v)
          && forall j :: 0 <= j < i ==> !Truthy(candidates[j]))
    || (v == default && forall j :: 0 <= j < |candidates| ==> !Truthy(candidates[j]))
  }

  ghost function Fields(d: Dict, keys: seq<string>): seq<Json> {
    seq(|keys|, i requires 0 <= i < |keys| => Field(d, keys[i]))
  }

  lemma {:induction false} FirstMeaning(d: Dict, keys: seq<string>, default: Json)
    ensures FirstPresent(Fields(d, keys), default, First(d, keys, default))
    decreases |keys|
  {
    var all := Fields(d, keys);
    if keys != [] {
      if all[0] != Null {
        assert all[0] == First(d, keys, default);
      } else {
        FirstMeaning(d, keys[1..], default);
        assert Fields(d, keys[1..]) == all[1..];
        var v := First(d, keys, default);
        if i :| 0 <= i < |all[1..]| && all[1..][i] == v && v != Null
                && forall j :: 0 <= j < i ==> all[1..][j] == Null {
          assert all[i + 1] == v;
          forall j | 0 <= j < i + 1 ensures all[j] == Null { if j > 0 { assert all[j] == all[1..][j - 1]; } }
        } else {
          forall j | 0 <= j < |all| ensures all[j] == Null { if j > 0 { assert all[j] == all[1..][j - 1]; } }
        }
      }
    }
  }

  lemma OrOfThree(a: Json, b: Json, c: Json, default: Json)
    ensures FirstTruthy([a, b, c], default, Or(a, Or(b, Or(c, default))))
  {
    var all := [a, b, c];
    if Truthy(a) {
      assert all[0] == a;
    } else if Truthy(b) {
      assert all[1] == b;
    } else if Truthy(c) {
      assert all[2] == c;
    }
  }

  lemma OneCandidate(d: Dict, key: string, default: Json)
    ensures First(d, [key], default) == if Field(d, key) != Null then Field(d, key) else default
  {
    assert First(d, [key][1..], default) == default;
  }

  lemma FirstOfTwo(d: Dict, a: string, b: string, default: Json)
    ensures FirstPresent([Field(d, a), Field(d, b)], default, First(d, [a, b], default))
  {
    FirstMeaning(d, [a, b], default);
    assert Fields(d, [a, b]) == [Field(d, a), Field(d, b)];
  }

  /** The object with the import's differences: that under the first of four fields
      that counts as true. */
  ghost predicate IsDiff(payload: Dict, diff: Dict) {
    var details := Sub(payload, "step_details");
    exists v ::
      && FirstTruthy([Field(details, "import_diff"), Field(details, "import_summary"), Field(payload, "import_diff")],
                     Field(payload, "import_summary"), v)
      && diff == if v.Obj? then v.fields else Dict([], map[])
  }

  lemma DiffMeaning(payload: Dict)
    ensures IsDiff(payload, Diff(payload))
  {
    var details := Sub(payload, "step_details");
    assert Details(payload) == details;
    OrOfThree(Field(details, "import_diff"), Field(details, "import_summary"), Field(payload, "import_diff"),
              Field(payload, "import_summary"));
  }

  ghost predicate IsCount(v: Json, n: nat) { v.Number? && IsNumeral(v.text, n) && (v.isZero <==> n == 0) }

  /** The warnings, when the field holds a list. */
  ghost function WarningItems(payload: Dict): seq<Json> {
    var w := Field(Sub(payload, "step_details"), "warnings");
    if w.List? then w.items else []
  }

  lemma WarningsMeaning(payload: Dict)
    ensures Warnings(payload) == WarningItems(payload)
  {
    assert Details(payload) == Sub(payload, "step_details");
  }

  /** A count given directly, else the length of the list of ids, from the details
      before the differences; anything that is not a list counts none. */
  ghost predicate IsChangedCount(payload: Dict, diff: Dict, v: Json) {
    var direct := [Field(diff, "changed_place_ids_count"), Field(diff, "changed_ids_count")];
    if direct[0] == Null && direct[1] == Null then
      var own := Field(Sub(payload, "step_details"), "changed_place_ids");
      var ids := if own != Null then own else Field(diff, "changed_place_ids");
      IsCount(v, if ids.List? then |ids.items| else 0)
    else FirstPresent(direct, Null, v)
  }

  lemma ChangedCountMeaning(payload: Dict, diff: Dict)
    ensures IsChangedCount(payload, diff, ChangedCount(payload, diff))
  {
    var direct := [Field(diff, "changed_place_ids_count"), Field(diff, "changed_ids_count")];
    FirstOfTwo(diff, "changed_place_ids_count", "changed_ids_count", Null);
    assert Details(payload) == Sub(payload, "step_details");
    OneCandidate(Details(payload), "changed_place_ids", GetOr(diff, "changed_place_ids", Null));
    if direct[0] == Null && direct[1] == Null {
      var ids := First(Details(payload), ["changed_place_ids"], GetOr(diff, "changed_place_ids", Null));
      DecimalIsNumeral(if ids.List? then |ids.items| else 0);
    }
  }

  /** The score of the payload, else of its details, else of the pipeline if that has
      the field at all. */
  ghost predicate IsReadiness(payload: Dict, v: Json) {
    var details := Sub(payload, "step_details");
    var pipeline := Sub(details, "unified_pipeline");
    FirstPresent([Field(payload, "readiness_score"), Field(details, "readiness_score")],
                 if "readiness_score" in pipeline.values then pipeline.values["readiness_score"] else Str(""), v)
  }

  lemma ReadinessMeaning(payload: Dict)
    ensures IsReadiness(payload, Readiness(payload))
  {
    var details := Sub(payload, "step_details");
    assert Details(payload) == details;
    var last := GetOr(Sub(details, "unified_pipeline"), "readiness_score", Str(""));
    OneCandidate(payload, "readiness_score", First(details, ["readiness_score"], last));
    OneCandidate(details, "readiness_score", last);
    var all := [Field(payload, "readiness_score"), Field(details, "readiness_score")];
    if all[0] != Null {
      assert all[0] == Readiness(payload);
    } else if all[1] != Null {
      assert all[1] == Readiness(payload);
    }
  }

  /** The value of each fixed key, in terms of the payload alone. */
  ghost predicate IsFieldValue(payload: Dict, diff: Dict, key: string, v: Json) {
    if key == "job_status" then
      FirstPresent([Field(payload, "status"), Field(payload, "job_status")], Str(""), v)
    else if key == "city_active" then
      FirstPresent([Field(payload, "is_city_active"), Field(payload, "city_active")], Str(""), v)
    else if key == "readiness_score" then IsReadiness(payload, v)
    else if key == "changed_place_ids_count" then IsChangedCount(payload, diff, v)
    else if key == "warnings_count" then IsCount(v, |WarningItems(payload)|)
    else if key == "warning_1_step" || key == "warning_1_error" then v == Str("")
    else if key in DIFF_KEYS then if key in diff.values then v == diff.values[key] else IsCount(v, 0)
    else v == if key in payload.values then payload.values[key] else Str("")
  }

  lemma HeadNames()
    ensures HEAD_KEYS[0] == "job_status" && HEAD_KEYS[1] == "city_active" && HEAD_KEYS[2] == "readiness_score"
    ensures HEAD_KEYS[3] == "changed_place_ids_count" && HEAD_KEYS[4] == "warnings_count"
    ensures HEAD_KEYS[5] == "warning_1_step" && HEAD_KEYS[6] == "warning_1_error"
  {
  }

  lemma HeadFieldValue(payload: Dict, i: nat)
    requires i < |HEAD_KEYS|
    ensures IsFieldValue(payload, Diff(payload), HEAD_KEYS[i], BaseValue(payload, HEAD_KEYS[i]))
  {
    HeadValues(payload, i);
    match i
    case 0 => FirstOfTwo(payload, "status", "job_status", Str(""));
    case 1 => FirstOfTwo(payload, "is_city_active", "city_active", Str(""));
    case 2 => ReadinessMeaning(payload);
    case 3 => ChangedCountMeaning(payload, Diff(payload));
    case 4 =>
      WarningsMeaning(payload);
      DecimalIsNumeral(|Warnings(payload)|);
    case _ =>
  }

  /** Main result: build_summary's values are those the payload's fields prescribe. */
  lemma BaseValueMeaning(payload: Dict, key: string)
    requires key in BASE_KEYS
    ensures IsFieldValue(payload, Diff(payload), key, BaseValue(payload, key))
  {
    KeysDistinct();
    InConcat(HEAD_KEYS + TOP_KEYS, DIFF_KEYS, key);
    InConcat(HEAD_KEYS, TOP_KEYS, key);
    if key in HEAD_KEYS {
      var i :| 0 <= i < |HEAD_KEYS| && HEAD_KEYS[i] == key;
      HeadFieldValue(payload, i);
    } else {
      assert forall i :: 0 <= i < |HEAD_KEYS| ==> HEAD_KEYS[i] in HEAD_KEYS;
      HeadNames();
      DecimalIsNumeral(0);
    }
  }

  /** The step of a warning: its own field if it is an object that has one. */
  ghost predicate IsStep(item: Json, v: Json) {
    v == if item.Obj? && "step" in item.fields.values then item.fields.values["step"] else Str("")
  }

  /** The error of a warning: of an object the first of three fields that counts as
      true, of a string the string itself. */
  ghost predicate IsError(item: Json, v: Json) {
    match item
    case Obj(fields) =>
      FirstTruthy([Field(fields, "error"), Field(fields, "message"), Field(fields, "detail")], Str(""), v)
    case Str(_) => v == item
    case _ => v == Str("")
  }

  lemma WarningMeaning(item: Json)
    ensures IsStep(item, StepOf(item)) && IsError(item, ErrorOf(item))
  {
    if item.Obj? {
      var d := item.fields;
      OrOfThree(Field(d, "error"), Field(d, "message"), Field(d, "detail"), Str(""));
    }
  }

  /** The summary shows under each fixed key, unless a warning has it, what the
      payload's own fields say. */
  ghost predicate ShowsFields(payload: Dict, diff: Dict, summary: Dict) {
    forall key :: key in BASE_KEYS && (WarningItems(payload) == [] || key !in {"warning_1_step", "warning_1_error"}) ==>
      key in summary.values && IsFieldValue(payload, diff, key, summary.values[key])
  }

  /** And each warning under its own two keys. */
  ghost predicate ShowsItem(payload: Dict, summary: Dict, i: nat)
    requires i < |WarningItems(payload)|
  {
    var step, error := "warning_" + Decimal(i + 1) + "_step", "warning_" + Decimal(i + 1) + "_error";
    && step in summary.values && IsStep(WarningItems(payload)[i], summary.values[step])
    && error in summary.values && IsError(WarningItems(payload)[i], summary.values[error])
  }

  ghost predicate ShowsPayload(payload: Dict, summary: Dict) {
    && (exists diff :: IsDiff(payload, diff) && ShowsFields(payload, diff, summary))
    && (forall i :: 0 <= i < |WarningItems(payload)| ==> ShowsItem(payload, summary, i))
  }

  ghost predicate ShowsWarnings(warnings: seq<Json>, summary: Dict) {
    forall k :: 0 <= k < 2 * |warnings| ==>
      Has(summary, WarningEntry(warnings, k).0, WarningEntry(warnings, k).1)
  }

  ghost predicate ShowsBase(payload: Dict, summary: Dict) {
    && (forall key :: key in BASE_KEYS && key !in WarningLines(Warnings(payload)).values ==>
          Has(summary, key, BaseValue(payload, key)))
    && (forall key :: key in summary.values ==> key in BASE_KEYS || key in WarningLines(Warnings(payload)).values)
  }

  /** The warnings' keys from the second warning on; the first one's are fixed keys. */
  function TailKeys(warnings: seq<Json>): seq<string> {
    if warnings == [] then [] else KeysOf(WarningEntries(warnings))[2..]
  }

  /** What the merged summary says, key by key: every warning is under its own two
      keys, and every other fixed key shows the value build_summary chose. The
      fixed keys come first, in the order of the source, then the warnings'. */
  ghost predicate Faithful(payload: Dict, summary: Dict) {
    && WellFormed(summary)
    && summary.keys == BASE_KEYS + TailKeys(Warnings(payload))
    && ShowsWarnings(Warnings(payload), summary)
    && ShowsBase(payload, summary)
  }

  lemma OnlyThreeStartWithW(k: string)
    requires k in BASE_KEYS && k[..1] == "w"
    ensures k == HEAD_KEYS[4] || k == HEAD_KEYS[5] || k == HEAD_KEYS[6]
  {
    assert k[0] == k[..1][0] == 'w';
    InConcat(HEAD_KEYS + TOP_KEYS, DIFF_KEYS, k);
    InConcat(HEAD_KEYS, TOP_KEYS, k);
    InConcat(ACTION_KEYS, PROGRESS_KEYS, k);
  }

  lemma FirstKeysAreFixed()
    ensures StepKey(1) == "warning_1_step" == HEAD_KEYS[5] && ErrorKey(1) == "warning_1_error" == HEAD_KEYS[6]
    ensures StepKey(1) in BASE_KEYS && ErrorKey(1) in BASE_KEYS
  {
    assert Decimal(1) == "1";
    assert StepKey(1) == "warning_1_step" && ErrorKey(1) == "warning_1_error";
    assert BASE_KEYS[5] == HEAD_KEYS[5] && BASE_KEYS[6] == HEAD_KEYS[6];
  }

  lemma LaterKeysAreNew(i: nat)
    requires i >= 2
    ensures StepKey(i) !in BASE_KEYS && ErrorKey(i) !in BASE_KEYS
  {
    var step, error := StepKey(i), ErrorKey(i);
    assert step[..1] == "w" && error[..1] == "w" && step[7] == '_' && error[7] == '_';
    assert HEAD_KEYS[4] == "warnings_count" && HEAD_KEYS[4][7] == 's';
    FirstKeysAreFixed();
    WarningKeysDistinct(i, 1);
    WarningKeysDistinct(1, i);
    if step in BASE_KEYS { OnlyThreeStartWithW(step); }
    if error in BASE_KEYS { OnlyThreeStartWithW(error); }
  }

  lemma OrderOfMerge(base: Dict, lines: Dict, m: nat)
    requires WellFormed(base) && WellFormed(lines) && m <= |lines.keys|
    requires forall i :: 0 <= i < |lines.keys| ==> (lines.keys[i] in base.values <==> i < m)
    ensures Merge(base, lines).keys == base.keys + lines.keys[m..]
  {
    MergeOrder(base, lines);
    NewToTail(base, lines.keys, m);
  }

  lemma WhichKeysAreFixed(warnings: seq<Json>, k: nat)
    requires k < 2 * |warnings|
    ensures WarningEntry(warnings, k).0 in BASE_KEYS <==> k < 2
  {
    if k < 2 {
      FirstKeysAreFixed();
    } else {
      assert k / 2 + 1 >= 2;
      LaterKeysAreNew(k / 2 + 1);
    }
  }

  lemma SummaryOrder(base: Dict, warnings: seq<Json>)
    requires WellFormed(base) && base.keys == BASE_KEYS && WellFormed(WarningLines(warnings))
    ensures Merge(base, WarningLines(warnings)).keys == BASE_KEYS + TailKeys(warnings)
  {
    WarningLinesMeaning(warnings);
    forall k | 0 <= k < 2 * |warnings| ensures KeysOf(WarningEntries(warnings))[k] in base.values <==> k < 2 {
      WhichKeysAreFixed(warnings, k);
    }
    OrderOfMerge(base, WarningLines(warnings), if warnings == [] then 0 else 2);
  }

  lemma WarningShown(warnings: seq<Json>, summary: Dict, i: nat)
    requires ShowsWarnings(warnings, summary) && i < |warnings|
    ensures Has(summary, StepKey(i + 1), StepOf(warnings[i])) && Has(summary, ErrorKey(i + 1), ErrorOf(warnings[i]))
  {
    assert WarningEntry(warnings, 2 * i) == (StepKey(i + 1), StepOf(warnings[i]));
    assert WarningEntry(warnings, 2 * i + 1) == (ErrorKey(i + 1), ErrorOf(warnings[i]));
  }

  lemma LineKey(warnings: seq<Json>, key: string) returns (k: nat)
    requires key in WarningLines(warnings).values
    ensures k < 2 * |warnings| && WarningEntry(warnings, k).0 == key
  {
    WarningLinesMeaning(warnings);
    k :| 0 <= k < 2 * |warnings| && WarningEntry(warnings, k).0 == key;
  }

  lemma EntryKey(warnings: seq<Json>, i: nat)
    requires i < |warnings|
    ensures WarningEntry(warnings, 2 * i).0 == StepKey(i + 1) && WarningEntry(warnings, 2 * i + 1).0 == ErrorKey(i + 1)
  {
  }

  lemma TakenKeys(warnings: seq<Json>, k: nat)
    requires k < 2 && k < 2 * |warnings|
    ensures WarningEntry(warnings, k).0 == if k == 0 then StepKey(1) else ErrorKey(1)
  {
    EntryKey(warnings, 0);
  }

  lemma KeyNotTaken(payload: Dict, key: string)
    requires key in BASE_KEYS && (WarningItems(payload) == [] || (key != StepKey(1) && key != ErrorKey(1)))
    ensures key !in WarningLines(Warnings(payload)).values
  {
    WarningsMeaning(payload);
    if key in WarningLines(Warnings(payload)).values {
      var k := LineKey(Warnings(payload), key);
      WhichKeysAreFixed(Warnings(payload), k);
      TakenKeys(Warnings(payload), k);
    }
  }

  lemma FaithfulShowsPayload(payload: Dict, summary: Dict)
    requires Faithful(payload, summary)
    ensures ShowsPayload(payload, summary)
  {
    DiffMeaning(payload);
    FirstKeysAreFixed();
    forall key | key in BASE_KEYS && (WarningItems(payload) == [] || key !in {"warning_1_step", "warning_1_error"})
      ensures key in summary.values && IsFieldValue(payload, Diff(payload), key, summary.values[key])
    {
      KeyNotTaken(payload, key);
      BaseValueMeaning(payload, key);
      assert Has(summary, key, BaseValue(payload, key));
    }
    WarningsMeaning(payload);
    forall i | 0 <= i < |WarningItems(payload)| ensures ShowsItem(payload, summary, i) {
      WarningShown(Warnings(payload), summary, i);
      WarningMeaning(Warnings(payload)[i]);
    }
  }

  method MergedSummary(payload: Dict) returns (summary: Dict)
    ensures Faithful(payload, summary)
    ensures forall i :: 0 <= i < |summary.keys| ==> PlainKey(summary.keys[i])
  {
    var base := BuildSummary(payload);
    var lines := WarningLines(Warnings(payload));
    WarningLinesMeaning(Warnings(payload));
    MergeMeaning(base, lines);
    SummaryOrder(base, Warnings(payload));
    summary := Merge(base, lines);
    SummaryKeysPlain(base, Warnings(payload), summary);
  }

  /** main, up to writing: for every payload the text parses back to exactly one
      entry per key of a faithful summary, in its order, with the value cleaned. */
  method Summarise(render: Json -> string, payload: Dict) returns (output: string, summary: Dict)
    ensures Faithful(payload, summary) && ShowsPayload(payload, summary)
    ensures |Parse(output)| == |summary.keys| == |Lines(output)|
    ensures forall i :: 0 <= i < |summary.keys| ==>
              Lines(output)[i] == summary.keys[i] + "=" + Clean(render, GetOr(summary, summary.keys[i], Null))
    ensures forall i :: 0 <= i < |summary.keys| ==>
              Parse(output)[i] == (summary.keys[i], Clean(render, GetOr(summary, summary.keys[i], Null)))
  {
    summary := MergedSummary(payload);
    FaithfulShowsPayload(payload, summary);
    PrintParseRoundTrip(render, summary);
    output := Print(render, summary);
  }
}
