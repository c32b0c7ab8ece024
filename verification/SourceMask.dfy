/** The masking scanner of the direct-dependency check: what counts as non-code Rust text, and blanking it in place. */
module SourceMask {
  import opened Wrappers

  /** `source.startswith(text, i)` */
  predicate At(s: string, text: string, i: nat) {
    i + |text| <= |s| && s[i..i + |text|] == text
  }

  /** `source.find(text, i)` */
  function Find(s: string, text: string, i: nat): (found: Option<nat>)
    ensures found.Some? ==> i <= found.value && At(s, text, found.value)
    ensures forall j :: i <= j && (found.None? || j < found.value) ==> !At(s, text, j)
    decreases |s| - i
  {
    if i + |text| > |s| then None
    else if At(s, text, i) then Some(i)
    else Find(s, text, i + 1)
  }

  // ---- where each kind of non-code text ends ----

  function LineEnd(s: string, i: nat): nat {
    match Find(s, "\n", i)
    case None => |s|
    case Some(end) => end
  }

  /** The end of a block comment of which `depth` levels are open at `i`. */
  function BlockEnd(s: string, i: nat, depth: nat): (end: nat)
    requires i <= |s|
    ensures i <= end <= |s|
    decreases |s| - i
  {
    if i == |s| || depth == 0 then i
    else if At(s, "/*", i) then BlockEnd(s, i + 2, depth + 1)
    else if At(s, "*/", i) then BlockEnd(s, i + 2, depth - 1)
    else BlockEnd(s, i + 1, depth)
  }

  function RawPrefix(s: string, i: nat): (length: nat)
    ensures i <= |s| ==> i + length <= |s|
  {
    if At(s, "br", i) then 2 else if At(s, "cr", i) then 2 else if At(s, "r", i) then 1 else 0
  }

  function HashEnd(s: string, i: nat): (end: nat)
    requires i <= |s|
    ensures i <= end <= |s| && (forall j :: i <= j < end ==> s[j] == '#') && (end < |s| ==> s[end] != '#')
    decreases |s| - i
  {
    if i < |s| && s[i] == '#' then HashEnd(s, i + 1) else i
  }

  function Delimiter(hashes: nat): (d: string)
    ensures |d| == hashes + 1 && d[0] == '"'
  {
    "\"" + seq(hashes, _ => '#')
  }

  /** The end of the raw string that starts at `i`, if one does; unterminated, it runs to the end of the text. */
  function RawEnd(s: string, i: nat): (end: Option<nat>)
    requires i < |s|
    ensures end.Some? ==> i < end.value <= |s|
  {
    var start := i + RawPrefix(s, i);
    var quote := HashEnd(s, start);
    if start == i || quote == |s| || s[quote] != '"' then None
    else
      var delimiter := Delimiter(quote - start);
      match Find(s, delimiter, quote + 1)
      case None => Some(|s|)
      case Some(end) => Some(end + |delimiter|)
  }

  /** The end of a string whose contents go on at `i`. */
  function StringEnd(s: string, i: nat, escaped: bool): (end: nat)
    requires i <= |s|
    ensures i <= end <= |s|
    decreases |s| - i
  {
    if i == |s| then i
    else if escaped then StringEnd(s, i + 1, false)
    else if s[i] == '\\' then StringEnd(s, i + 1, true)
    else if s[i] == '"' then i + 1
    else StringEnd(s, i + 1, false)
  }

  function StringStart(s: string, i: nat): (start: nat)
    requires i < |s|
    ensures start < |s|
  {
    if s[i] in {'b', 'c'} && i + 1 < |s| && s[i + 1] == '"' then i + 1 else i
  }

  function EscapeEnd(s: string, i: nat, limit: nat): (end: Option<nat>)
    requires 0 < i && limit <= |s|
    ensures end.Some? ==> i < end.value <= limit && s[end.value - 1] == '\''
    decreases limit - i
  {
    if i >= limit then None
    else if s[i] == '\'' && s[i - 1] != '\\' then Some(i + 1)
    else EscapeEnd(s, i + 1, limit)
  }

  function Min(a: nat, b: nat): nat {
    if a < b then a else b
  }

  function CharEnd(s: string, i: nat): Option<nat>
    requires i < |s|
  {
    if s[i] != '\'' || i + 2 >= |s| then None
    else if s[i + 1] != '\\' && s[i + 2] == '\'' then Some(i + 3)
    else if s[i + 1] == '\\' then EscapeEnd(s, i + 2, Min(|s|, i + 14))
    else None
  }

  /** The end of the non-code text that starts at `i`, or `i` itself if what is there is code. */
  function SpanEnd(s: string, i: nat): (end: nat)
    requires i < |s|
    ensures i <= end <= |s|
  {
    if At(s, "//", i) then LineEnd(s, i + 2)
    else if At(s, "/*", i) then BlockEnd(s, i + 2, 1)
    else if RawEnd(s, i).Some? then RawEnd(s, i).value
    else if s[StringStart(s, i)] == '"' then StringEnd(s, StringStart(s, i) + 1, false)
    else if CharEnd(s, i).Some? then CharEnd(s, i).value
    else i
  }

  function Blanked(c: char): char {
    if c == '\n' then c else ' '
  }

  function BlankedText(s: string): (r: string)
    ensures |r| == |s| && forall k :: 0 <= k < |s| ==> r[k] == Blanked(s[k])
  {
    seq(|s|, k requires 0 <= k < |s| => Blanked(s[k]))
  }

  /** The text from `i` on with every span of non-code text blanked. */
  function Masked(s: string, i: nat): (r: string)
    requires i <= |s|
    ensures |r| == |s| - i
    decreases |s| - i
  {
    if i == |s| then []
    else if SpanEnd(s, i) > i then BlankedText(s[i..SpanEnd(s, i)]) + Masked(s, SpanEnd(s, i))
    else [s[i]] + Masked(s, i + 1)
  }

  // ---- the scanner ----

  method Blank(code: array<char>, start: nat, end: nat)
    requires start <= end <= code.Length
    modifies code
    ensures code[..] == old(code[..start]) + BlankedText(old(code[start..end])) + old(code[end..])
  {
    for position := start to end
      invariant forall k :: 0 <= k < code.Length ==>
        code[k] == if start <= k < position then Blanked(old(code[k])) else old(code[k])
    {
      if code[position] != '\n' {
        code[position] := ' ';
      }
    }
  }

  method SkipBlockComment(source: string, start: nat) returns (index: nat)
    requires At(source, "/*", start)
    ensures index == BlockEnd(source, start + 2, 1)
  {
    hide At;
    index := start + 2;
    var depth := 1;
    while index < |source| && depth != 0
      invariant 0 <= depth && index <= |source|
      invariant BlockEnd(source, index, depth) == BlockEnd(source, start + 2, 1)
    {
      if At(source, "/*", index) {
        depth := depth + 1;
        index := index + 2;
      } else if At(source, "*/", index) {
        depth := depth - 1;
        index := index + 2;
      } else {
        index := index + 1;
      }
    }
  }

  method SkipRawString(source: string, index: nat) returns (end: Option<nat>)
    requires index < |source|
    ensures end == RawEnd(source, index)
  {
    hide Find, At, RawPrefix, Delimiter;
    var rawPrefixLength := RawPrefix(source, index);
    if rawPrefixLength == 0 {
      return None;
    }
    var cursor := index + rawPrefixLength;
    var hashCount := 0;
    while cursor < |source| && source[cursor] == '#'
      invariant cursor == index + rawPrefixLength + hashCount <= |source|
      invariant HashEnd(source, cursor) == HashEnd(source, index + rawPrefixLength)
    {
      hashCount := hashCount + 1;
      cursor := cursor + 1;
    }
    if cursor == |source| || source[cursor] != '"' {
      return None;
    }
    var found := Find(source, Delimiter(hashCount), cursor + 1);
    return Some(match found case None => |source| case Some(at) => at + |Delimiter(hashCount)|);
  }

  method SkipString(source: string, start: nat) returns (cursor: nat)
    requires start < |source|
    ensures cursor == StringEnd(source, start + 1, false)
  {
    cursor := start + 1;
    var escaped := false;
    while cursor < |source|
      invariant cursor <= |source|
      invariant StringEnd(source, cursor, escaped) == StringEnd(source, start + 1, false)
    {
      var character := source[cursor];
      cursor := cursor + 1;
      if escaped {
        escaped := false;
      } else if character == '\\' {
        escaped := true;
      } else if character == '"' {
        return;
      }
    }
  }

  method SkipChar(source: string, index: nat) returns (charEnd: Option<nat>)
    requires index < |source|
    ensures charEnd == CharEnd(source, index)
  {
    charEnd := None;
    if source[index] == '\'' && index + 2 < |source| {
      if source[index + 1] != '\\' && source[index + 2] == '\'' {
        charEnd := Some(index + 3);
      } else if source[index + 1] == '\\' {
        var cursor := index + 2;
        var limit := Min(|source|, index + 14);
        while cursor < limit
          invariant index + 2 <= cursor <= limit
          invariant EscapeEnd(source, cursor, limit) == EscapeEnd(source, index + 2, limit)
        {
          if source[cursor] == '\'' && source[cursor - 1] != '\\' {
            return Some(cursor + 1);
          }
          cursor := cursor + 1;
        }
      }
    }
  }

  /** `code` holds the source with everything before `index` masked and everything after it untouched. */
  ghost predicate MaskedUpTo(source: string, code: string, index: nat) {
    && index <= |source|
    && Masked(source, 0) == Masked(source, 0)[..index] + Masked(source, index)
    && code == Masked(source, 0)[..index] + source[index..]
  }

  lemma MaskedAdvances(source: string, index: nat, end: nat, span: string)
    requires index <= end <= |source| && |span| == end - index
    requires Masked(source, 0) == Masked(source, 0)[..index] + Masked(source, index)
    requires Masked(source, index) == span + Masked(source, end)
    ensures Masked(source, 0)[..end] == Masked(source, 0)[..index] + span
    ensures Masked(source, 0) == Masked(source, 0)[..end] + Masked(source, end)
  {
    hide *;
    var all, before, rest := Masked(source, 0), Masked(source, 0)[..index], Masked(source, end);
    assert before + (span + rest) == (before + span) + rest;
    assert all[..end] == before + span;
  }

  lemma SpanBlanked(source: string, before: string, after: string, index: nat)
    requires MaskedUpTo(source, before, index) && index < |source| && SpanEnd(source, index) > index
    requires after ==
      before[..index] + BlankedText(before[index..SpanEnd(source, index)]) + before[SpanEnd(source, index)..]
    ensures MaskedUpTo(source, after, SpanEnd(source, index))
  {
    hide SpanEnd, BlankedText, Blanked;
    var end := SpanEnd(source, index);
    MaskedAdvances(source, index, end, BlankedText(source[index..end]));
    assert before[..index] == Masked(source, 0)[..index];
    assert before[index..end] == source[index..end];
    assert before[end..] == source[end..];
  }

  lemma CodeKept(source: string, code: string, index: nat)
    requires MaskedUpTo(source, code, index) && index < |source| && SpanEnd(source, index) == index
    ensures MaskedUpTo(source, code, index + 1)
  {
    hide SpanEnd, BlankedText;
    var before, c, rest := Masked(source, 0)[..index], source[index], source[index + 1..];
    MaskedAdvances(source, index, index + 1, [c]);
    assert source[index..] == [c] + rest;
    assert before + ([c] + rest) == (before + [c]) + rest;
  }

  /** The length of the span found at `index`, or `index` when there is none. */
  method ScanSpan(source: string, index: nat) returns (end: nat)
    requires index < |source|
    ensures end == SpanEnd(source, index)
  {
    if At(source, "//", index) {
      var found := Find(source, "\n", index + 2);
      return match found case None => |source| case Some(at) => at;
    }
    if At(source, "/*", index) {
      end := SkipBlockComment(source, index);
      return;
    }
    var raw := SkipRawString(source, index);
    if raw.Some? {
      return raw.value;
    }
    var stringStart := index;
    if source[index] in {'b', 'c'} && index + 1 < |source| {
      if source[index + 1] == '"' {
        stringStart := index + 1;
      }
    }
    if source[stringStart] == '"' {
      end := SkipString(source, stringStart);
      return;
    }
    var charEnd := SkipChar(source, index);
    if charEnd.Some? {
      return charEnd.value;
    }
    return index;
  }

  method RustCodeWithoutCommentsAndLiterals(source: string) returns (masked: string)
    ensures masked == Masked(source, 0)
  {
    var code := new char[|source|](i requires 0 <= i < |source| => source[i]);
    assert code[..] == source;
    var index := 0;
    while index < |source|
      invariant code.Length == |source| && MaskedUpTo(source, code[..], index)
    {
      var end := ScanSpan(source, index);
      if end > index {
        ghost var before := code[..];
        Blank(code, index, end);
        SpanBlanked(source, before, code[..], index);
        index := end;
      } else {
        CodeKept(source, code[..], index);
        index := index + 1;
      }
    }
    masked := code[..];
  }
}
