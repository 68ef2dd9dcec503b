// The comma-list parser for CORS origins (core/cors.py).
module Cors {
  import opened Subsequences
  import opened Text

  const DEFAULT_ORIGINS: seq<string> := ["http://localhost:5173", "http://127.0.0.1:5173"]

  function StripAll(items: seq<string>): (r: seq<string>) {
    if items == [] then [] else [Strip(items[0])] + StripAll(items[1..])
  }

  function NonEmpty(items: seq<string>): seq<string> {
    if items == [] then [] else (if items[0] != "" then [items[0]] else []) + NonEmpty(items[1..])
  }

  /** parse_cors_origins */
  function ParseCorsOrigins(raw: string): seq<string> {
    var values := StripAll(Split(raw, ','));
    var origins := NonEmpty(values);
    if origins == [] then DEFAULT_ORIGINS else origins
  }

  /** An origin a parse can give: not empty, nothing to trim, no comma. */
  ghost predicate Clean(item: string) { item != "" && Trimmed(item) && ',' !in item }

  lemma {:induction false} CleanPieces(items: seq<string>)
    requires forall p :: p in items ==> ',' !in p
    ensures forall p :: p in NonEmpty(StripAll(items)) ==> Clean(p)
    decreases |items|
  {
    if items != [] {
      assert items[0] in items && forall p :: p in items[1..] ==> p in items;
      CleanPieces(items[1..]);
      StripTrims(items[0]);
    }
  }

  lemma {:induction false} CleanFixed(items: seq<string>)
    requires forall p :: p in items ==> Clean(p)
    ensures NonEmpty(StripAll(items)) == items
    decreases |items|
  {
    if items != [] {
      assert items[0] in items && forall p :: p in items[1..] ==> p in items;
      CleanFixed(items[1..]);
      StripTrimmed(items[0]);
      assert StripAll(items)[1..] == StripAll(items[1..]);
    }
  }

  lemma {:induction false} NonEmptyKeepsOrder(items: seq<string>)
    ensures Subsequence(NonEmpty(items), items)
    ensures forall x :: x in items && x != "" ==> x in NonEmpty(items)
    ensures "" !in NonEmpty(items)
    decreases |items|
  {
    if items == [] {
      WholeIsSubsequence(items);
    } else {
      NonEmptyKeepsOrder(items[1..]);
      SubsequenceCons(NonEmpty(items[1..]), items, items[0] != "");
    }
  }

  lemma {:induction false} NonEmptyKeepsCounts(items: seq<string>, x: string)
    requires x != ""
    ensures multiset(NonEmpty(items))[x] == multiset(items)[x]
    decreases |items|
  {
    if items != [] {
      NonEmptyKeepsCounts(items[1..], x);
      assert items == [items[0]] + items[1..];
    }
  }

  lemma DefaultsAreClean()
    ensures forall p :: p in DEFAULT_ORIGINS ==> Clean(p)
  {
    var a, b := DEFAULT_ORIGINS[0], DEFAULT_ORIGINS[1];
    assert |a| == 21 && a[20] == '3' && a[0] == 'h';
    assert |b| == 21 && b[20] == '3' && b[0] == 'h';
  }

  /** Piece by piece: each stretch between commas, stripped. */
  lemma {:induction false} PiecesMeaning(items: seq<string>)
    ensures |StripAll(items)| == |items| && forall i :: 0 <= i < |items| ==> StripAll(items)[i] == Strip(items[i])
    decreases |items|
  {
    if items != [] {
      PiecesMeaning(items[1..]);
    }
  }

  /** The result is never empty, its items are clean, and unless it is the default
      it is the trimmed pieces in input order, with the empty ones left out. */
  lemma OriginsAreTheTrimmedPieces(raw: string)
    ensures ParseCorsOrigins(raw) != []
    ensures forall p :: p in ParseCorsOrigins(raw) ==> Clean(p)
    ensures var pieces := StripAll(Split(raw, ','));
            (ParseCorsOrigins(raw) == DEFAULT_ORIGINS && forall p :: p in pieces ==> p == "")
            || (Subsequence(ParseCorsOrigins(raw), pieces)
                && forall x :: x != "" ==> multiset(ParseCorsOrigins(raw))[x] == multiset(pieces)[x])
  {
    var pieces := StripAll(Split(raw, ','));
    SplitParts(raw, ',');
    CleanPieces(Split(raw, ','));
    DefaultsAreClean();
    NonEmptyKeepsOrder(pieces);
    forall x | x != "" ensures multiset(NonEmpty(pieces))[x] == multiset(pieces)[x] {
      NonEmptyKeepsCounts(pieces, x);
    }
  }

  /** Main result: parsing the comma-join of a parse gives it back. */
  lemma ParseIsFixedPoint(raw: string)
    ensures ParseCorsOrigins(Join(ParseCorsOrigins(raw), ',')) == ParseCorsOrigins(raw)
  {
    var origins := ParseCorsOrigins(raw);
    OriginsAreTheTrimmedPieces(raw);
    SplitJoin(origins, ',');
    CleanFixed(origins);
  }
}
