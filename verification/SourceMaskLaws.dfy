/** What the masking scanner promises on every text, well-formed Rust or not. */
module SourceMaskLaws {
  import opened Wrappers
  import opened SourceMask

  /** Scanning from `i`, the character at `k` is met as code, outside every span. */
  ghost predicate IsCode(s: string, i: nat, k: nat)
    requires i <= |s|
    decreases |s| - i
  {
    i < |s| &&
    if SpanEnd(s, i) > i then IsCode(s, SpanEnd(s, i), k) else k == i || IsCode(s, i + 1, k)
  }

  lemma {:induction false} CodeIsAhead(s: string, i: nat, k: nat)
    requires i <= |s| && IsCode(s, i, k)
    ensures i <= k < |s| && SpanEnd(s, k) == k
    decreases |s| - i
  {
    hide SpanEnd;
    if SpanEnd(s, i) > i {
      CodeIsAhead(s, SpanEnd(s, i), k);
    } else if k != i {
      CodeIsAhead(s, i + 1, k);
    }
  }

  /** Code is kept and everything else is blanked. */
  lemma {:induction false} MaskedAt(s: string, i: nat, k: nat)
    requires i <= k < |s|
    ensures Masked(s, i)[k - i] == if IsCode(s, i, k) then s[k] else Blanked(s[k])
    decreases |s| - i
  {
    hide SpanEnd, Blanked;
    var end := SpanEnd(s, i);
    if end > i {
      if k < end {
        if IsCode(s, end, k) {
          CodeIsAhead(s, end, k);
        }
        assert Masked(s, i)[k - i] == BlankedText(s[i..end])[k - i];
      } else {
        MaskedAt(s, end, k);
        assert Masked(s, i)[k - i] == Masked(s, end)[k - end];
      }
    } else if k != i {
      MaskedAt(s, i + 1, k);
    }
  }

  /** Length and line structure survive; every character is the source's or a space. */
  lemma MaskKeepsShape(s: string)
    ensures |Masked(s, 0)| == |s|
    ensures forall k :: 0 <= k < |s| ==> (Masked(s, 0)[k] == '\n' <==> s[k] == '\n')
    ensures forall k :: 0 <= k < |s| ==> Masked(s, 0)[k] == s[k] || Masked(s, 0)[k] == ' '
  {
    forall k | 0 <= k < |s|
      ensures Masked(s, 0)[k] == s[k] || (Masked(s, 0)[k] == Blanked(s[k]) && Masked(s, 0)[k] == ' ')
    {
      MaskedAt(s, 0, k);
    }
  }

  // ---- the ends of spans ----

  lemma {:induction false} BlockEndsInSlash(s: string, i: nat, depth: nat)
    requires i <= |s| && depth > 0 && BlockEnd(s, i, depth) < |s|
    ensures BlockEnd(s, i, depth) > i && s[BlockEnd(s, i, depth) - 1] == '/'
    decreases |s| - i
  {
    if At(s, "/*", i) {
      BlockEndsInSlash(s, i + 2, depth + 1);
    } else if At(s, "*/", i) {
      assert s[i..i + 2][1] == '/';
      if depth > 1 {
        BlockEndsInSlash(s, i + 2, depth - 1);
      }
    } else {
      BlockEndsInSlash(s, i + 1, depth);
    }
  }

  lemma {:induction false} StringEndsInQuote(s: string, i: nat, escaped: bool)
    requires i <= |s|
    ensures StringEnd(s, i, escaped) > i || i == |s|
    ensures StringEnd(s, i, escaped) < |s| ==> s[StringEnd(s, i, escaped) - 1] == '"'
    decreases |s| - i
  {
    if i < |s| && !(s[i] == '"' && !escaped) {
      StringEndsInQuote(s, i + 1, !escaped && s[i] == '\\');
    }
  }

  lemma RawEndsInDelimiter(s: string, i: nat)
    requires i < |s| && RawEnd(s, i).Some?
    ensures RawEnd(s, i).value >= i + 2
    ensures RawEnd(s, i).value < |s| ==> s[RawEnd(s, i).value - 1] != '\\'
  {
    hide Find, HashEnd;
    var start := i + RawPrefix(s, i);
    var quote := HashEnd(s, start);
    var delimiter := Delimiter(quote - start);
    var found := Find(s, delimiter, quote + 1);
    if found.Some? {
      assert s[found.value..found.value + |delimiter|][|delimiter| - 1] == delimiter[|delimiter| - 1];
    }
  }

  /**
   * A span is at least two characters long unless it ends the text, and never stops right after a backslash on the same
   * line.
   */
  lemma SpanFinish(s: string, i: nat)
    requires i < |s| && SpanEnd(s, i) > i
    ensures SpanEnd(s, i) >= i + 2 || SpanEnd(s, i) == |s|
    ensures SpanEnd(s, i) < |s| ==> s[SpanEnd(s, i)] == '\n' || s[SpanEnd(s, i) - 1] != '\\'
  {
    hide Find, BlockEnd, StringEnd, HashEnd, EscapeEnd, RawEnd;
    if At(s, "//", i) {
      var newline := Find(s, "\n", i + 2);
      assert newline.Some? ==> s[newline.value..newline.value + 1][0] == '\n';
    } else if At(s, "/*", i) {
      if SpanEnd(s, i) < |s| {
        BlockEndsInSlash(s, i + 2, 1);
      }
    } else if RawEnd(s, i).Some? {
      RawEndsInDelimiter(s, i);
    } else if s[StringStart(s, i)] == '"' {
      StringEndsInQuote(s, StringStart(s, i) + 1, false);
    }
  }

  // ---- the neighbours of code ----

  /** If code is followed by a blanked character, a whole span starts there. */
  lemma {:induction false} AfterCode(s: string, i: nat, k: nat, j: nat)
    requires i <= |s| && IsCode(s, i, k) && k + 1 < |s| && !IsCode(s, i, k + 1)
    ensures SpanEnd(s, k + 1) > k + 1
    ensures k + 1 <= j < SpanEnd(s, k + 1) ==> !IsCode(s, i, j)
    decreases |s| - i
  {
    hide SpanEnd;
    CodeIsAhead(s, i, k);
    if SpanEnd(s, i) > i {
      AfterCode(s, SpanEnd(s, i), k, j);
    } else if k != i {
      AfterCode(s, i + 1, k, j);
    } else {
      assert !IsCode(s, k + 1, k + 1) && SpanEnd(s, k + 1) > k + 1;
      if IsCode(s, i, j) && k + 1 <= j {
        assert IsCode(s, k + 1, j);
        assert IsCode(s, SpanEnd(s, k + 1), j);
        CodeIsAhead(s, SpanEnd(s, k + 1), j);
      }
    }
  }

  /** If code follows a blanked character, a span ended there. */
  lemma {:induction false} BeforeCode(s: string, i: nat, k: nat)
    requires i < k < |s| && IsCode(s, i, k) && !IsCode(s, i, k - 1)
    ensures s[k] == '\n' || s[k - 1] != '\\'
    decreases |s| - i
  {
    hide SpanEnd;
    CodeIsAhead(s, i, k);
    if SpanEnd(s, i) > i {
      CodeIsAhead(s, SpanEnd(s, i), k);
      if SpanEnd(s, i) == k {
        SpanFinish(s, i);
      } else {
        BeforeCode(s, SpanEnd(s, i), k);
      }
    } else {
      CodeIsAhead(s, i + 1, k);
      BeforeCode(s, i + 1, k);
    }
  }

  // ---- masking twice ----

  /** Code is a character at which no span starts. */
  lemma CodeStartsNothing(s: string, k: nat)
    requires k < |s| && SpanEnd(s, k) == k
    ensures !At(s, "//", k) && !At(s, "/*", k) && s[k] != '"' && CharEnd(s, k).None?
  {
    hide Find, BlockEnd, StringEnd, RawEnd, EscapeEnd;
    StringEndsInQuote(s, StringStart(s, k) + 1, false);
  }

  lemma PairAt(s: string, text: string, k: nat)
    requires |text| == 2
    ensures At(s, text, k) <==> k + 1 < |s| && s[k] == text[0] && s[k + 1] == text[1]
  {
    if k + 1 < |s| {
      assert s[k..k + 2] == [s[k], s[k + 1]];
      assert text == [text[0], text[1]];
    }
  }

  /** What the masked text shows at `k`. */
  lemma Shown(s: string, k: nat)
    requires k < |s|
    ensures Masked(s, 0)[k] == ' ' || Masked(s, 0)[k] ==
      '\n' || (IsCode(s, 0, k) && Masked(s, 0)[k] == s[k] && SpanEnd(s, k) == k && s[k] != '"')
    ensures IsCode(s, 0, k) ==> Masked(s, 0)[k] == s[k]
  {
    hide SpanEnd, Masked;
    MaskedAt(s, 0, k);
    if IsCode(s, 0, k) {
      CodeIsAhead(s, 0, k);
      CodeStartsNothing(s, k);
    }
  }

  lemma NoCommentStarts(s: string, k: nat)
    requires k < |s|
    ensures !At(Masked(s, 0), "//", k) && !At(Masked(s, 0), "/*", k)
  {
    hide SpanEnd, Masked, IsCode;
    var m := Masked(s, 0);
    PairAt(m, "//", k);
    PairAt(m, "/*", k);
    Shown(s, k);
    if k + 1 < |s| {
      Shown(s, k + 1);
      PairAt(s, "//", k);
      PairAt(s, "/*", k);
      if IsCode(s, 0, k) {
        CodeIsAhead(s, 0, k);
        CodeStartsNothing(s, k);
      }
    }
  }

  lemma NoQuoteNoString(m: string, k: nat)
    requires k < |m| && forall j :: 0 <= j < |m| ==> m[j] != '"'
    ensures RawEnd(m, k).None? && m[StringStart(m, k)] != '"'
  {
    hide At, Find, Delimiter, RawPrefix, HashEnd;
  }

  /** No quotation mark outlives masking, so no string starts in masked text. */
  lemma NoStringStarts(s: string, k: nat)
    requires k < |s|
    ensures RawEnd(Masked(s, 0), k).None? && Masked(s, 0)[StringStart(Masked(s, 0), k)] != '"'
  {
    hide *;
    forall j | 0 <= j < |s| ensures Masked(s, 0)[j] != '"' {
      Shown(s, j);
    }
    NoQuoteNoString(Masked(s, 0), k);
  }

  /** A character literal's end found in the masked text would have been found in the source. */
  lemma {:induction false} EscapeEndAgrees(s: string, i: nat, limit: nat)
    requires 0 < i && limit <= |s| && EscapeEnd(s, i, limit).None?
    ensures EscapeEnd(Masked(s, 0), i, limit).None?
    decreases limit - i
  {
    hide SpanEnd, Masked, IsCode;
    if i < limit {
      EscapeEndAgrees(s, i + 1, limit);
      Shown(s, i);
      Shown(s, i - 1);
      if IsCode(s, 0, i) && !IsCode(s, 0, i - 1) {
        BeforeCode(s, 0, i);
      }
    }
  }

  lemma NoCharStarts(s: string, k: nat)
    requires k < |s|
    ensures CharEnd(Masked(s, 0), k).None?
  {
    hide SpanEnd, Masked, IsCode, EscapeEnd;
    var m := Masked(s, 0);
    Shown(s, k);
    if m[k] == '\'' && k + 2 < |s| {
      CodeStartsNothing(s, k);
      Shown(s, k + 1);
      Shown(s, k + 2);
      if m[k + 1] == '\\' {
        EscapeEndAgrees(s, k + 2, Min(|s|, k + 14));
      } else if !IsCode(s, 0, k + 1) {
        AfterCode(s, 0, k, k + 2);
        SpanFinish(s, k + 1);
      }
    }
  }

  lemma {:induction false} UnmaskableIsUnchanged(m: string, i: nat)
    requires i <= |m| && forall k :: i <= k < |m| ==> SpanEnd(m, k) == k
    ensures Masked(m, i) == m[i..]
    decreases |m| - i
  {
    hide SpanEnd;
    if i < |m| {
      UnmaskableIsUnchanged(m, i + 1);
      assert m[i..] == [m[i]] + m[i + 1..];
    }
  }

  /** The masked text, of any source, holds nothing that would be masked. */
  lemma NothingLeftToMask(s: string, k: nat)
    requires k < |s|
    ensures SpanEnd(Masked(s, 0), k) == k
  {
    hide Masked, At, RawEnd, CharEnd, LineEnd, BlockEnd, StringEnd;
    NoCommentStarts(s, k);
    NoStringStarts(s, k);
    NoCharStarts(s, k);
  }

  /** Masking a second time changes nothing. */
  lemma MaskIdempotent(s: string)
    ensures Masked(Masked(s, 0), 0) == Masked(s, 0)
  {
    hide SpanEnd, Masked;
    forall k | 0 <= k < |s| ensures SpanEnd(Masked(s, 0), k) == k {
      NothingLeftToMask(s, k);
    }
    UnmaskableIsUnchanged(Masked(s, 0), 0);
  }

  /**
   * A one-character escape such as '\n' is masked as a whole, except the escaped backslash, whose closing quote is
   * passed over.
   */
  lemma EscapedCharIsMaskedUnlessBackslash(s: string, i: nat)
    requires i + 3 < |s| && s[i] == '\'' && s[i + 1] == '\\' && s[i + 3] == '\''
    ensures CharEnd(s, i) == Some(i + 4) <==> s[i + 2] != '\\'
  {
    var limit := Min(|s|, i + 14);
    assert EscapeEnd(s, i + 2, limit) == EscapeEnd(s, i + 3, limit);
    assert s[i + 2] == '\\' ==> EscapeEnd(s, i + 3, limit) == EscapeEnd(s, i + 4, limit);
  }

  lemma EscapedBackslashStays()
    ensures CharEnd("'\\\\'", 0) == None
  {
    var s := "'\\\\'";
    assert EscapeEnd(s, 4, 4) == None;
    assert EscapeEnd(s, 3, 4) == EscapeEnd(s, 4, 4);
    assert EscapeEnd(s, 2, 4) == EscapeEnd(s, 3, 4);
  }

  // ---- block comments ----

  datatype Piece = Open | Close | Other {
    function Width(): nat {
      if this == Other then 1 else 2
    }

    function Step(): int {
      match this case Open => 1 case Close => -1 case Other => 0
    }
  }

  /** How far the pieces open more levels than they close. */
  function Net(pieces: seq<Piece>): int {
    if pieces == [] then 0 else pieces[0].Step() + Net(pieces[1..])
  }

  /** Read from left to right, the text between `i` and `end` consists of these comment marks and other characters. */
  ghost predicate Spells(s: string, i: nat, pieces: seq<Piece>, end: nat)
    decreases pieces
  {
    if pieces == [] then i == end <= |s|
    else
      && i < |s|
      && (pieces[0] == if At(s, "/*", i) then Open else if At(s, "*/", i) then Close else Other)
      && Spells(s, i + pieces[0].Width(), pieces[1..], end)
  }

  /** A nesting of block comments that starts at `i` is complete at `end`. */
  ghost predicate Balanced(s: string, i: nat, end: nat) {
    exists pieces :: pieces != [] && Net(pieces) == 0 && Spells(s, i, pieces, end)
  }

  lemma {:induction false} SpellsForward(s: string, i: nat, pieces: seq<Piece>, end: nat)
    requires Spells(s, i, pieces, end)
    ensures i <= end <= |s|
    decreases pieces
  {
    if pieces != [] {
      SpellsForward(s, i + pieces[0].Width(), pieces[1..], end);
    }
  }

  /** If some reading closes all open levels, the scanner stops no later, and with all levels closed. */
  lemma {:induction false} BlockEndIsFirst(s: string, i: nat, depth: nat, pieces: seq<Piece>,
      end: nat) returns (first: seq<Piece>)
    requires i <= |s| && Spells(s, i, pieces, end) && depth + Net(pieces) == 0
    ensures BlockEnd(s, i, depth) <= end
    ensures Spells(s, i, first, BlockEnd(s, i, depth)) && depth + Net(first) == 0
    decreases |pieces|
  {
    hide At;
    SpellsForward(s, i, pieces, end);
    if pieces == [] || depth == 0 {
      first := [];
    } else {
      assert pieces[0].Step() + Net(pieces[1..]) == Net(pieces);
      var rest := BlockEndIsFirst(s, i + pieces[0].Width(), depth + pieces[0].Step(), pieces[1..], end);
      first := [pieces[0]] + rest;
      assert first[1..] == rest;
    }
  }

  lemma {:induction false} BlockEndCloses(s: string, i: nat, depth: nat) returns (pieces: seq<Piece>)
    requires i <= |s|
    ensures Spells(s, i, pieces, BlockEnd(s, i, depth))
    ensures depth + Net(pieces) == 0 || BlockEnd(s, i, depth) == |s|
    decreases |s| - i
  {
    if i == |s| || depth == 0 {
      pieces := [];
    } else {
      var piece := if At(s, "/*", i) then Open else if At(s, "*/", i) then Close else Other;
      var rest := BlockEndCloses(s, i + piece.Width(), depth + piece.Step());
      pieces := [piece] + rest;
      assert pieces[1..] == rest;
    }
  }

  lemma BalancedAfterOpen(s: string, i: nat, pieces: seq<Piece>, end: nat)
    requires At(s, "/*", i) && Spells(s, i + 2, pieces, end) && 1 + Net(pieces) == 0
    ensures Balanced(s, i, end)
  {
    hide At;
    assert ([Open] + pieces)[1..] == pieces;
    assert Spells(s, i, [Open] + pieces, end) && Net([Open] + pieces) == 0;
  }

  /**
   * A block comment is masked up to the end of the shortest complete nesting, or to the end of the text when none
   * completes.
   */
  lemma BlockCommentIsShortestNesting(s: string, i: nat)
    requires At(s, "/*", i)
    ensures forall end :: Balanced(s, i, end) ==> SpanEnd(s, i) <= end
    ensures (exists end :: Balanced(s, i, end)) <==> Balanced(s, i, SpanEnd(s, i))
    ensures Balanced(s, i, SpanEnd(s, i)) || SpanEnd(s, i) == |s|
  {
    PairAt(s, "//", i);
    PairAt(s, "/*", i);
    assert SpanEnd(s, i) == BlockEnd(s, i + 2, 1);
    forall end | Balanced(s, i, end) ensures SpanEnd(s, i) <= end && Balanced(s, i, SpanEnd(s, i)) {
      var pieces :| pieces != [] && Net(pieces) == 0 && Spells(s, i, pieces, end);
      var first := BlockEndIsFirst(s, i + 2, 1, pieces[1..], end);
      BalancedAfterOpen(s, i, first, SpanEnd(s, i));
    }
    var pieces := BlockEndCloses(s, i + 2, 1);
    if 1 + Net(pieces) == 0 {
      BalancedAfterOpen(s, i, pieces, SpanEnd(s, i));
    }
  }
}
