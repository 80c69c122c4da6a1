/**
 * parseCSVLine of the Nigeria economic timeline (app.js): a quote-aware
 * field splitter. Each `"` only toggles an in-quotes flag and is dropped; a
 * comma outside quotes ends a field; every field is trimmed.
 *
 * The specification `Fields` says this without the loop: a separator is a
 * comma preceded by an even number of quotes, and the fields are the pieces
 * between separators with their quotes removed, then trimmed.
 */
module CsvLine {
  import opened Wrappers
  import opened JsText

  /** The number of `"` characters among the first `n` characters of `line`. */
  function QuotesBefore(line: string, n: nat): nat
    requires n <= |line|
  {
    if n == 0 then 0
    else QuotesBefore(line, n - 1) + (if line[n - 1] == '"' then 1 else 0)
  }

  /** After reading the first `n` characters, the splitter is inside quotes:
      each quote flips the state (InQuotesIsOddQuotes: an odd number of quotes). */
  predicate InQuotesBefore(line: string, n: nat)
    requires n <= |line|
  {
    if n == 0 then false
    else if line[n - 1] == '"' then !InQuotesBefore(line, n - 1)
    else InQuotesBefore(line, n - 1)
  }

  /** Inside quotes exactly when an odd number of quotes has been read. */
  lemma {:induction false} InQuotesIsOddQuotes(line: string, n: nat)
    requires n <= |line|
    ensures InQuotesBefore(line, n) <==> QuotesBefore(line, n) % 2 == 1
  {
    if n > 0 {
      InQuotesIsOddQuotes(line, n - 1);
    }
  }

  /** Position `i` holds a comma outside quotes. */
  predicate IsSeparator(line: string, i: nat)
    requires i < |line|
  {
    line[i] == ',' && !InQuotesBefore(line, i)
  }

  /** The characters of `line` at positions `a` to `b - 1`, with every `"` removed. */
  function Unquoted(line: string, a: nat, b: nat): (r: string)
    requires a <= b <= |line|
    decreases b
  {
    if b == a then []
    else if line[b - 1] == '"' then Unquoted(line, a, b - 1)
    else Unquoted(line, a, b - 1) + [line[b - 1]]
  }

  /** The last separator strictly before position `n`, if any. */
  function LastSeparatorBefore(line: string, n: nat): (r: Option<nat>)
    requires n <= |line|
    ensures r.Some? ==> r.value < n && IsSeparator(line, r.value)
    ensures r.Some? ==> forall j :: r.value < j < n ==> !IsSeparator(line, j)
    ensures r.None? ==> forall j :: 0 <= j < n ==> !IsSeparator(line, j)
  {
    if n == 0 then None
    else if IsSeparator(line, n - 1) then Some(n - 1)
    else LastSeparatorBefore(line, n - 1)
  }

  /** The fields of the first `n` characters of `line`: one per piece between
      separators, its quotes removed and then trimmed. */
  function FieldsBefore(line: string, n: nat): seq<string>
    requires n <= |line|
  {
    match LastSeparatorBefore(line, n)
    case None => [Trim(Unquoted(line, 0, n))]
    case Some(p) => FieldsBefore(line, p) + [Trim(Unquoted(line, p + 1, n))]
  }

  /** The fields parseCSVLine returns for `line`. */
  function Fields(line: string): seq<string>
  {
    FieldsBefore(line, |line|)
  }

  /** The last separator before `n` is the one just before `start` (none when
      `start` is 0) if no separator lies between `start` and `n`. */
  lemma {:induction false} LastSeparatorIs(line: string, start: nat, n: nat)
    requires start <= n <= |line|
    requires start > 0 ==> IsSeparator(line, start - 1)
    requires forall j :: start <= j < n ==> !IsSeparator(line, j)
    ensures LastSeparatorBefore(line, n) == if start == 0 then None else Some(start - 1)
    decreases n
  {
    if n > start {
      LastSeparatorIs(line, start, n - 1);
    }
  }

  /** With no separator between `start` and `n`, the fields before `n` are those
      before the separator at `start - 1` and the piece from `start` to `n`. */
  lemma FieldsAfterSeparator(line: string, start: nat, n: nat)
    requires start <= n <= |line|
    requires start > 0 ==> IsSeparator(line, start - 1)
    requires forall j :: start <= j < n ==> !IsSeparator(line, j)
    ensures FieldsBefore(line, n) ==
      (if start == 0 then [] else FieldsBefore(line, start - 1)) + [Trim(Unquoted(line, start, n))]
  {
    LastSeparatorIs(line, start, n);
    if start == 0 {
      UnfoldFieldsNone(line, n);
    } else {
      UnfoldFieldsSome(line, n, start - 1);
    }
  }

  /** FieldsBefore when no separator precedes `n`. */
  lemma UnfoldFieldsNone(line: string, n: nat)
    requires n <= |line| && LastSeparatorBefore(line, n).None?
    ensures FieldsBefore(line, n) == [] + [Trim(Unquoted(line, 0, n))]
  {
  }

  /** FieldsBefore when the last separator before `n` is at `p`. */
  lemma UnfoldFieldsSome(line: string, n: nat, p: nat)
    requires n <= |line| && LastSeparatorBefore(line, n) == Some(p)
    ensures FieldsBefore(line, n) == FieldsBefore(line, p) + [Trim(Unquoted(line, p + 1, n))]
  {
  }

  // ---------------------------------------------------------------------
  // The splitter as written: one pass with `result`, `current` and `inQuotes`.

  /** The splitter's state after reading the first `i` characters: `inQuotes`
      is the quote state, `start` is where the pending piece began (just after
      the last separator), `result` holds the fields before that separator and
      `current` the pending piece with its quotes removed. */
  predicate Reading(line: string, i: nat, start: nat, inQuotes: bool, result: seq<string>, current: string)
  {
    && start <= i <= |line|
    && inQuotes == InQuotesBefore(line, i)
    && (start > 0 ==> IsSeparator(line, start - 1))
    && (forall j :: start <= j < i ==> !IsSeparator(line, j))
    && result == (if start == 0 then [] else FieldsBefore(line, start - 1))
    && current == Unquoted(line, start, i)
  }

  method ParseCSVLine(line: string) returns (result: seq<string>)
    ensures result == Fields(line)
  {
    result := [];
    var current := "";
    var inQuotes := false;
    var i := 0;
    ghost var start := 0;
    while i < |line|
      invariant Reading(line, i, start, inQuotes, result, current)
    {
      var c := line[i];
      if c == '"' {
        QuoteStep(line, i, start, inQuotes, result, current);
        inQuotes := !inQuotes;
      } else if c == ',' && !inQuotes {
        SeparatorStep(line, i, start, inQuotes, result, current);
        result := result + [Trim(current)];
        current := "";
        start := i + 1;
      } else {
        OtherStep(line, i, start, inQuotes, result, current);
        current := current + [c];
      }
      i := i + 1;
    }
    FinalStep(line, start, inQuotes, result, current);
    result := result + [Trim(current)];
  }

  lemma QuoteStep(line: string, i: nat, start: nat, inQuotes: bool, result: seq<string>, current: string)
    requires Reading(line, i, start, inQuotes, result, current)
    requires i < |line| && line[i] == '"'
    ensures Reading(line, i + 1, start, !inQuotes, result, current)
  {
  }

  lemma SeparatorStep(line: string, i: nat, start: nat, inQuotes: bool, result: seq<string>, current: string)
    requires Reading(line, i, start, inQuotes, result, current)
    requires i < |line| && line[i] == ',' && !inQuotes
    ensures Reading(line, i + 1, i + 1, inQuotes, result + [Trim(current)], "")
  {
    FieldsAfterSeparator(line, start, i);
  }

  lemma OtherStep(line: string, i: nat, start: nat, inQuotes: bool, result: seq<string>, current: string)
    requires Reading(line, i, start, inQuotes, result, current)
    requires i < |line| && line[i] != '"' && !(line[i] == ',' && !inQuotes)
    ensures Reading(line, i + 1, start, inQuotes, result, current + [line[i]])
  {
  }

  lemma FinalStep(line: string, start: nat, inQuotes: bool, result: seq<string>, current: string)
    requires Reading(line, |line|, start, inQuotes, result, current)
    ensures result + [Trim(current)] == Fields(line)
  {
    FieldsAfterSeparator(line, start, |line|);
  }

  // ---------------------------------------------------------------------
  // What the fields are

  /** The number of separators strictly before position `n`. */
  function SeparatorsBefore(line: string, n: nat): nat
    requires n <= |line|
  {
    if n == 0 then 0
    else SeparatorsBefore(line, n - 1) + (if IsSeparator(line, n - 1) then 1 else 0)
  }

  lemma {:induction false} SeparatorsBetween(line: string, a: nat, n: nat)
    requires a <= n <= |line|
    requires forall j :: a <= j < n ==> !IsSeparator(line, j)
    ensures SeparatorsBefore(line, n) == SeparatorsBefore(line, a)
    decreases n
  {
    if n > a {
      SeparatorsBetween(line, a, n - 1);
    }
  }

  /** There is exactly one field more than there are commas outside quotes. */
  lemma {:induction false} FieldCount(line: string, n: nat)
    requires n <= |line|
    ensures |FieldsBefore(line, n)| == SeparatorsBefore(line, n) + 1
    decreases n
  {
    match LastSeparatorBefore(line, n)
    case None =>
      SeparatorsBetween(line, 0, n);
    case Some(p) =>
      FieldCount(line, p);
      SeparatorsBetween(line, p + 1, n);
  }

  /** A trimmed piece with its quotes removed is trimmed and holds no double quote. */
  lemma PieceClean(line: string, a: nat, b: nat)
    requires a <= b <= |line|
    ensures IsTrimmed(Trim(Unquoted(line, a, b))) && '"' !in Trim(Unquoted(line, a, b))
  {
    var u := Unquoted(line, a, b);
    TrimIsTrimmed(u);
    UnquotedHasNoQuote(line, a, b);
    if '"' in Trim(u) {
      TrimContents(u, '"');
    }
  }

  lemma {:induction false} UnquotedHasNoQuote(line: string, a: nat, b: nat)
    requires a <= b <= |line|
    ensures '"' !in Unquoted(line, a, b)
    decreases b
  {
    if b > a {
      UnquotedHasNoQuote(line, a, b - 1);
    }
  }

  /** Every field is trimmed and holds no double quote. */
  lemma {:induction false} FieldsClean(line: string, n: nat)
    requires n <= |line|
    ensures forall k :: 0 <= k < |FieldsBefore(line, n)| ==>
      IsTrimmed(FieldsBefore(line, n)[k]) && '"' !in FieldsBefore(line, n)[k]
    decreases n
  {
    var f := FieldsBefore(line, n);
    match LastSeparatorBefore(line, n)
    case None =>
      PieceClean(line, 0, n);
    case Some(p) =>
      FieldsClean(line, p);
      PieceClean(line, p + 1, n);
      var g := FieldsBefore(line, p);
      assert f == g + [Trim(Unquoted(line, p + 1, n))];
      forall k | 0 <= k < |f|
        ensures IsTrimmed(f[k]) && '"' !in f[k]
      {
        if k < |g| {
          assert f[k] == g[k];
        }
      }
  }

  /** A character that is not a quote survives in the unquoted piece. */
  lemma {:induction false} UnquotedKeeps(line: string, a: nat, b: nat, i: nat)
    requires a <= i < b <= |line| && line[i] != '"'
    ensures line[i] in Unquoted(line, a, b)
    decreases b
  {
    if i < b - 1 {
      UnquotedKeeps(line, a, b - 1, i);
    }
  }

  /** A comma inside quotes does not split: it stays in the field that the
      separators before it say it belongs to. */
  lemma {:induction false} QuotedCommaKept(line: string, n: nat, i: nat)
    requires i < n <= |line|
    requires line[i] == ',' && InQuotesBefore(line, i)
    ensures SeparatorsBefore(line, i) < |FieldsBefore(line, n)|
    ensures ',' in FieldsBefore(line, n)[SeparatorsBefore(line, i)]
    decreases n
  {
    FieldCount(line, n);
    var f := FieldsBefore(line, n);
    match LastSeparatorBefore(line, n)
    case None =>
      SeparatorsBetween(line, 0, i);
      CommaSurvives(line, 0, n, i);
    case Some(p) =>
      var g := FieldsBefore(line, p);
      assert f == g + [Trim(Unquoted(line, p + 1, n))];
      FieldCount(line, p);
      if i < p {
        QuotedCommaKept(line, p, i);
        assert f[SeparatorsBefore(line, i)] == g[SeparatorsBefore(line, i)];
      } else {
        assert i != p;
        SeparatorsBetween(line, p + 1, i);
        assert SeparatorsBefore(line, i) == |g|;
        CommaSurvives(line, p + 1, n, i);
      }
  }

  lemma CommaSurvives(line: string, a: nat, b: nat, i: nat)
    requires a <= i < b <= |line| && line[i] == ','
    ensures ',' in Trim(Unquoted(line, a, b))
  {
    UnquotedKeeps(line, a, b, i);
    var u := Unquoted(line, a, b);
    var k :| 0 <= k < |u| && u[k] == ',';
    TrimKeeps(u, k);
  }

  /** The properties of parseCSVLine's output, for the whole line. */
  lemma FieldsOfLine(line: string)
    ensures |Fields(line)| == SeparatorsBefore(line, |line|) + 1
    ensures forall k :: 0 <= k < |Fields(line)| ==> IsTrimmed(Fields(line)[k]) && '"' !in Fields(line)[k]
  {
    FieldCount(line, |line|);
    FieldsClean(line, |line|);
  }
}
