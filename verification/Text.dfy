/** `str::trim` and the character classes it and the reducers test. */
module Text {

  /** Unicode White_Space, the class `char::is_whitespace` tests. */
  predicate IsSpace(c: char) {
    var n := c as int;
    9 <= n <= 13 || n == 0x20 || n == 0x85 || n == 0xA0 || n == 0x1680 || 0x2000 <= n <= 0x200A
    || n == 0x2028 || n == 0x2029 || n == 0x202F || n == 0x205F || n == 0x3000
  }

  function SkipSpaces(s: string, i: nat): (start: nat)
    requires i <= |s|
    ensures i <= start <= |s|
    ensures forall j :: i <= j < start ==> IsSpace(s[j])
    ensures start < |s| ==> !IsSpace(s[start])
    decreases |s| - i
  {
    if i < |s| && IsSpace(s[i]) then SkipSpaces(s, i + 1) else i
  }

  function DropSpaces(s: string, start: nat, i: nat): (end: nat)
    requires start <= i <= |s|
    ensures start <= end <= i
    ensures forall j :: end <= j < i ==> IsSpace(s[j])
    ensures start < end ==> !IsSpace(s[end - 1])
  {
    if start < i && IsSpace(s[i - 1]) then DropSpaces(s, start, i - 1) else i
  }

  /** `str::trim` */
  function Trim(s: string): string {
    var start := SkipSpaces(s, 0);
    s[start..DropSpaces(s, start, |s|)]
  }

  function LowerChar(c: char): char {
    if 'A' <= c <= 'Z' then ((c as int) + 32) as char else c
  }

  /** `to_ascii_lowercase` */
  function Lower(s: string): string {
    if s == "" then "" else [LowerChar(s[0])] + Lower(s[1..])
  }

  /** Twenty-six letters move by 32; everything else stays. */
  lemma {:induction false} LowerExactly(s: string)
    ensures |Lower(s)| == |s|
    ensures forall i :: 0 <= i < |s| ==>
      Lower(s)[i] as int == s[i] as int + if 65 <= s[i] as int <= 90 then 32 else 0
  {
    if s != "" {
      LowerExactly(s[1..]);
      forall i | 0 < i < |s| ensures Lower(s)[i] == Lower(s[1..])[i - 1] && s[i] == s[1..][i - 1] {
      }
    }
  }

  function Replaced(s: string, from: char, to: char): string {
    if s == "" then "" else [if s[0] == from then to else s[0]] + Replaced(s[1..], from, to)
  }

  lemma {:induction false} ReplacedExactly(s: string, from: char, to: char)
    ensures |Replaced(s, from, to)| == |s|
    ensures forall i :: 0 <= i < |s| ==> Replaced(s, from, to)[i] == if s[i] == from then to else s[i]
  {
    if s != "" {
      ReplacedExactly(s[1..], from, to);
      forall i | 0 < i < |s| ensures Replaced(s, from, to)[i] == Replaced(s[1..], from, to)[i - 1] {
      }
    }
  }

  predicate IsBlank(s: string) {
    Trim(s) == ""
  }

  ghost predicate AllSpaces(s: string) {
    forall i :: 0 <= i < |s| ==> IsSpace(s[i])
  }

  /** `t` is `s` without some white space at its ends. */
  ghost predicate Stripped(s: string, t: string) {
    exists before, after :: s == before + t + after && AllSpaces(before) && AllSpaces(after)
  }

  lemma SliceIsStripped(s: string, start: nat, end: nat)
    requires start <= end <= |s| && AllSpaces(s[..start]) && AllSpaces(s[end..])
    ensures Stripped(s, s[start..end])
  {
    hide AllSpaces;
    assert s == s[..start] + s[start..end] + s[end..];
  }

  /** Trimming takes away white space at both ends, all of it, and nothing else. */
  lemma TrimExactly(s: string)
    ensures Stripped(s, Trim(s))
    ensures Trim(s) != "" ==> !IsSpace(Trim(s)[0]) && !IsSpace(Trim(s)[|Trim(s)| - 1])
  {
    hide IsSpace, Stripped;
    var start := SkipSpaces(s, 0);
    var end := DropSpaces(s, start, |s|);
    assert AllSpaces(s[..start]) && AllSpaces(s[end..]);
    SliceIsStripped(s, start, end);
  }

  lemma BlankExactly(s: string)
    ensures IsBlank(s) <==> AllSpaces(s)
  {
    hide IsSpace;
    var start := SkipSpaces(s, 0);
    var end := DropSpaces(s, start, |s|);
    assert AllSpaces(s) ==> start == |s|;
  }

  /** A trimmed string has nothing left to trim. */
  lemma TrimIdempotent(s: string)
    ensures Trim(Trim(s)) == Trim(s)
  {
    var start := SkipSpaces(s, 0);
    var end := DropSpaces(s, start, |s|);
    var t := Trim(s);
    if t != [] {
      assert t[0] == s[start] && t[|t| - 1] == s[end - 1];
      assert SkipSpaces(t, 0) == 0 && DropSpaces(t, 0, |t|) == |t|;
    }
  }

  lemma NotBlank(s: string, i: nat)
    requires i < |s| && !IsSpace(s[i])
    ensures !IsBlank(s)
  {
    assert SkipSpaces(s, 0) <= i < DropSpaces(s, SkipSpaces(s, 0), |s|);
  }
}
