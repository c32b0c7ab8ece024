/** Where each kind of non-code text starts and ends, told character by character. */
module SourceSpans {
  import opened Wrappers
  import opened SourceMask
  import opened SourceMaskLaws

  /** `end` comes just after the first of the closing positions from `from` on, or is the end of the text. */
  ghost predicate EndsAtFirst(s: string, from: nat, closes: nat -> bool, width: nat, end: nat) {
    || (end == |s| && forall k: nat :: from <= k ==> !closes(k))
    || exists k: nat :: from <= k && closes(k) && end == k + width && forall j: nat :: from <= j < k ==> !closes(j)
  }

  // ---- line comments ----

  ghost predicate OpensLine(s: string, i: nat) {
    i + 1 < |s| && s[i] == '/' && s[i + 1] == '/'
  }

  ghost predicate OpensBlock(s: string, i: nat) {
    i + 1 < |s| && s[i] == '/' && s[i + 1] == '*'
  }

  lemma NewlineAt(s: string, k: nat)
    ensures At(s, "\n", k) <==> k < |s| && s[k] == '\n'
  {
    if k < |s| {
      assert s[k..k + 1] == [s[k]];
    }
  }

  /** A line comment goes up to the next line break, which stays, or to the end of the text. */
  lemma LineCommentExactly(s: string, i: nat)
    requires OpensLine(s, i)
    ensures i + 2 <= SpanEnd(s, i) <= |s|
    ensures forall k :: i + 2 <= k < SpanEnd(s, i) ==> s[k] != '\n'
    ensures SpanEnd(s, i) == |s| || s[SpanEnd(s, i)] == '\n'
  {
    PairAt(s, "//", i);
    forall k: nat ensures At(s, "\n", k) <==> k < |s| && s[k] == '\n' {
      NewlineAt(s, k);
    }
    hide At;
  }

  // ---- strings ----

  /** A string whose quotation mark is at `quote` opens at `i`, with or without a one-letter prefix. */
  ghost predicate OpensString(s: string, i: nat, quote: nat) {
    quote < |s| && s[quote] == '"' && (quote == i || (quote == i + 1 && (s[i] == 'b' || s[i] == 'c')))
  }

  /** How many backslashes stand right before `k`, going back to `from` at most. */
  function Backslashes(s: string, from: nat, k: nat): nat
    requires k <= |s|
  {
    if k > from && s[k - 1] == '\\' then 1 + Backslashes(s, from, k - 1) else 0
  }

  /** A quotation mark that is not escaped: an even number of backslashes stands before it. */
  ghost function ClosesString(s: string, from: nat): nat -> bool {
    (k: nat) => k < |s| && s[k] == '"' && Backslashes(s, from, k) % 2 == 0
  }

  lemma {:induction false} StringEndExactly(s: string, from: nat, i: nat)
    requires from <= i <= |s|
    ensures EndsAtFirst(s, i, ClosesString(s, from), 1, StringEnd(s, i, Backslashes(s, from, i) % 2 == 1))
    decreases |s| - i
  {
    var closes := ClosesString(s, from);
    if i < |s| {
      StringEndExactly(s, from, i + 1);
      if closes(i) {
        assert StringEnd(s, i, false) == i + 1;
      } else {
        FirstFromNext(s, i, closes, 1, StringEnd(s, i + 1, Backslashes(s, from, i + 1) % 2 == 1));
      }
    }
  }

  lemma FirstFromNext(s: string, i: nat, closes: nat -> bool, width: nat, end: nat)
    requires EndsAtFirst(s, i + 1, closes, width, end) && !closes(i)
    ensures EndsAtFirst(s, i, closes, width, end)
  {
    if k: nat :| i + 1 <= k && closes(k) && end == k + width && forall j: nat :: i + 1 <= j < k ==> !closes(j) {
      assert forall j: nat :: i <= j < k ==> !closes(j);
    }
  }

  lemma QuoteIsNoComment(s: string, i: nat, quote: nat)
    requires OpensString(s, i, quote)
    ensures !At(s, "//", i) && !At(s, "/*", i) && RawEnd(s, i).None? && StringStart(s, i) == quote
  {
    PairAt(s, "//", i);
    PairAt(s, "/*", i);
    RawPrefixExactly(s, i);
    hide At, RawPrefix, Find;
  }

  /** A string goes on up to the first quotation mark that is not escaped, or to the end of the text. */
  lemma StringExactly(s: string, i: nat, quote: nat)
    requires OpensString(s, i, quote)
    ensures EndsAtFirst(s, quote + 1, ClosesString(s, quote + 1), 1, SpanEnd(s, i))
  {
    hide At, RawEnd, StringStart, EndsAtFirst;
    QuoteIsNoComment(s, i, quote);
    StringEndExactly(s, quote + 1, quote + 1);
  }

  // ---- raw strings ----

  /** `r`, `br` or `cr`, then hashes only, then a quotation mark. */
  ghost predicate OpensRaw(s: string, i: nat, hashes: nat, quote: nat) {
    && quote < |s| && s[quote] == '"' && hashes < quote && (forall j :: quote - hashes <= j < quote ==> s[j] == '#')
    && (|| (quote - hashes == i + 1 && s[i] == 'r')
        || (quote - hashes == i + 2 && (s[i] == 'b' || s[i] == 'c') && s[i + 1] == 'r'))
  }

  /** A quotation mark followed by that many hashes. */
  ghost function ClosesRaw(s: string, hashes: nat): nat -> bool {
    (k: nat) => k + hashes < |s| && s[k] == '"' && forall j :: k < j <= k + hashes ==> s[j] == '#'
  }

  lemma RawPrefixExactly(s: string, i: nat)
    requires i < |s|
    ensures RawPrefix(s, i) == if i + 1 < |s| && (s[i] == 'b' || s[i] == 'c') && s[i + 1] == 'r' then 2
      else if s[i] == 'r' then 1 else 0
  {
    PairAt(s, "br", i);
    PairAt(s, "cr", i);
    assert s[i..i + 1] == [s[i]];
  }

  lemma DelimiterAt(s: string, hashes: nat, k: nat)
    ensures At(s, Delimiter(hashes), k) <==> ClosesRaw(s, hashes)(k)
  {
    var d := Delimiter(hashes);
    assert forall j :: 1 <= j <= hashes ==> d[j] == '#';
    if k + hashes < |s| {
      var part := s[k..k + |d|];
      assert forall j :: 0 <= j < |d| ==> part[j] == s[k + j];
      if ClosesRaw(s, hashes)(k) {
        assert part == d;
      }
      if part == d {
        forall j | k < j <= k + hashes ensures s[j] == '#' {
          assert part[j - k] == d[j - k];
        }
        assert part[0] == s[k];
      }
    }
  }

  lemma HashesEndAtQuote(s: string, start: nat, quote: nat)
    requires start <= quote < |s| && s[quote] == '"' && forall j :: start <= j < quote ==> s[j] == '#'
    ensures HashEnd(s, start) == quote
  {
  }

  lemma RawOpeningParts(s: string, i: nat, hashes: nat, quote: nat)
    requires OpensRaw(s, i, hashes, quote)
    ensures i < quote - hashes <= quote < |s| && s[quote] == '"'
    ensures i + RawPrefix(s, i) == quote - hashes && HashEnd(s, quote - hashes) == quote
  {
    RawPrefixExactly(s, i);
    HashesEndAtQuote(s, quote - hashes, quote);
    hide RawPrefix, HashEnd;
  }

  lemma RawEndExactly(s: string, i: nat, hashes: nat, quote: nat)
    requires OpensRaw(s, i, hashes, quote)
    ensures RawEnd(s, i).Some? && EndsAtFirst(s, quote + 1, ClosesRaw(s, hashes), hashes + 1, RawEnd(s, i).value)
  {
    hide OpensRaw, ClosesRaw, At, RawPrefix, HashEnd, Delimiter, Find, EndsAtFirst;
    RawOpeningParts(s, i, hashes, quote);
    var closes, d := ClosesRaw(s, hashes), Delimiter(hashes);
    forall k: nat ensures At(s, d, k) <==> closes(k) {
      DelimiterAt(s, hashes, k);
    }
    FindIsFirst(s, d, quote + 1, closes);
  }

  lemma FindIsFirst(s: string, text: string, from: nat, closes: nat -> bool)
    requires forall k: nat :: At(s, text, k) <==> closes(k)
    ensures var found := Find(s, text, from);
      EndsAtFirst(s, from, closes, |text|, if found.Some? then found.value + |text| else |s|)
  {
    hide At;
  }

  /** A raw string goes on up to the first quotation mark with as many hashes after it, or to the end of the text. */
  lemma RawStringExactly(s: string, i: nat, hashes: nat, quote: nat)
    requires OpensRaw(s, i, hashes, quote)
    ensures EndsAtFirst(s, quote + 1, ClosesRaw(s, hashes), hashes + 1, SpanEnd(s, i))
  {
    PairAt(s, "//", i);
    PairAt(s, "/*", i);
    hide At, RawEnd, EndsAtFirst;
    RawEndExactly(s, i, hashes, quote);
  }

  // ---- character literals ----

  /** The closing quote of a plain character, or one within twelve characters of a backslash and not after another. */
  ghost function ClosesChar(s: string, i: nat): nat -> bool {
    (k: nat) => i + 2 <= k < |s| && s[k] == '\'' &&
      if s[i + 1] == '\\' then k < i + 14 && s[k - 1] != '\\' else k == i + 2
  }

  lemma {:induction false} EscapeEndExactly(s: string, i: nat, k: nat, limit: nat)
    requires i + 2 <= k && limit <= |s| && limit == Min(|s|, i + 14) && i + 1 < |s| && s[i + 1] == '\\'
    ensures var end := EscapeEnd(s, k, limit); var closes := ClosesChar(s, i);
      && (end.None? <==> forall j: nat :: k <= j ==> !closes(j))
      && (end.Some? ==> EndsAtFirst(s, k, closes, 1, end.value) && closes(end.value - 1) && k < end.value)
    decreases limit - k
  {
    var closes := ClosesChar(s, i);
    if k < limit {
      EscapeEndExactly(s, i, k + 1, limit);
      if !closes(k) {
        var end := EscapeEnd(s, k + 1, limit);
        if end.Some? {
          FirstFromNext(s, k, closes, 1, end.value);
        }
      }
    }
  }

  lemma CharEndExactly(s: string, i: nat)
    requires i < |s| && s[i] == '\''
    ensures var closes := ClosesChar(s, i);
      && (CharEnd(s, i).None? <==> forall k: nat :: i + 2 <= k ==> !closes(k))
      && (CharEnd(s, i).Some? ==> EndsAtFirst(s, i + 2, closes, 1, CharEnd(s, i).value) && CharEnd(s, i).value >= i + 3)
  {
    var closes := ClosesChar(s, i);
    if i + 2 < |s| {
      if s[i + 1] == '\\' {
        EscapeEndExactly(s, i, i + 2, Min(|s|, i + 14));
      } else {
        assert closes(i + 2) <==> s[i + 2] == '\'';
      }
    }
  }

  /** A quote starts a literal exactly if it is closed, and the literal ends just after the first closing quote. */
  lemma CharLiteralExactly(s: string, i: nat)
    requires i < |s| && s[i] == '\''
    ensures var closes := ClosesChar(s, i);
      if exists k: nat :: i + 2 <= k && closes(k)
      then EndsAtFirst(s, i + 2, closes, 1, SpanEnd(s, i)) && SpanEnd(s, i) > i
      else SpanEnd(s, i) == i
  {
    PairAt(s, "//", i);
    PairAt(s, "/*", i);
    RawPrefixExactly(s, i);
    CharEndExactly(s, i);
    hide At, RawPrefix, CharEnd, EndsAtFirst, ClosesChar;
  }

  // ---- code ----

  lemma RawEndOpens(s: string, i: nat)
    requires i < |s| && RawEnd(s, i).Some?
    ensures exists hashes: nat, quote: nat :: OpensRaw(s, i, hashes, quote)
  {
    RawPrefixExactly(s, i);
    hide RawPrefix, Find;
    var start := i + RawPrefix(s, i);
    var quote := HashEnd(s, start);
    assert OpensRaw(s, i, quote - start, quote);
  }

  /** Text is masked from `i` on exactly if a comment, a string, a raw string or a closed literal starts there. */
  lemma SpanStartsExactly(s: string, i: nat)
    requires i < |s|
    ensures SpanEnd(s, i) > i <==>
      || OpensLine(s, i) || OpensBlock(s, i)
      || (exists quote: nat :: OpensString(s, i, quote))
      || (exists hashes: nat, quote: nat :: OpensRaw(s, i, hashes, quote))
      || (s[i] == '\'' && exists k: nat :: i + 2 <= k && ClosesChar(s, i)(k))
  {
    PairAt(s, "//", i);
    PairAt(s, "/*", i);
    hide At, RawEnd, CharEnd, ClosesChar, OpensRaw, BlockEnd, Find;
    if hashes: nat, quote: nat :| OpensRaw(s, i, hashes, quote) {
      RawEndExactly(s, i, hashes, quote);
    }
    if RawEnd(s, i).Some? {
      RawEndOpens(s, i);
    }
    if s[i] == '\'' {
      CharEndExactly(s, i);
    }
    if s[StringStart(s, i)] == '"' {
      assert OpensString(s, i, StringStart(s, i));
    }
    if quote: nat :| OpensString(s, i, quote) {
      QuoteIsNoComment(s, i, quote);
    }
  }
}
