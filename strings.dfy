module Wrappers {

  /** The conventional optional value. */
  datatype Option<+T> = None | Some(value: T)
}

/** The JavaScript string operations the chat handler relies on: `indexOf`,
    `lastIndexOf`, `trim`, and `replace` with a plain-string pattern. A string is
    a sequence of characters. */
module Strings {
  import opened Wrappers

  /** JavaScript's WhiteSpace and LineTerminator code points: the one set that
      both `\s` in a regular expression and `String.prototype.trim` skip. */
  predicate IsWhite(c: char) {
    c == '\t' || c == '\n' || c == '\U{000B}' || c == '\U{000C}' || c == '\r' || c == ' '
    || c == '\U{00A0}' || c == '\U{1680}' || ('\U{2000}' <= c <= '\U{200A}')
    || c == '\U{2028}' || c == '\U{2029}' || c == '\U{202F}' || c == '\U{205F}'
    || c == '\U{3000}' || c == '\U{FEFF}'
  }

  predicate AllWhite(s: seq<char>) {
    forall i :: 0 <= i < |s| ==> IsWhite(s[i])
  }

  /** `pat` occurs in `t` at position `i`. */
  predicate StartsAt(t: seq<char>, pat: seq<char>, i: nat) {
    i + |pat| <= |t| && t[i..i + |pat|] == pat
  }

  /** `t.indexOf(pat, from)`: the first occurrence of `pat` at or after `from`. */
  function Find(t: seq<char>, pat: seq<char>, from: nat): (r: Option<nat>)
    ensures r.Some? ==> from <= r.value && StartsAt(t, pat, r.value)
    ensures forall i :: from <= i && (r.None? || i < r.value) ==> !StartsAt(t, pat, i)
    decreases |t| - from
  {
    if from + |pat| > |t| then None
    else if t[from..from + |pat|] == pat then Some(from)
    else Find(t, pat, from + 1)
  }

  /** `t.lastIndexOf(c, from)`: the last position at or before `from` that holds `c`. */
  function LastIndexOf(t: seq<char>, c: char, from: nat): (r: Option<nat>)
    ensures r.Some? ==> r.value <= from && r.value < |t| && t[r.value] == c
    ensures forall i :: 0 <= i < |t| && i <= from && (r.None? || r.value < i) ==> t[i] != c
    decreases from
  {
    if from >= |t| then (if |t| == 0 then None else LastIndexOf(t, c, |t| - 1))
    else if t[from] == c then Some(from)
    else if from == 0 then None
    else LastIndexOf(t, c, from - 1)
  }

  /** The end of the run of white space that starts at `i`. */
  function SkipWhite(t: seq<char>, i: nat): (j: nat)
    requires i <= |t|
    ensures i <= j <= |t| && AllWhite(t[i..j])
    ensures j < |t| ==> !IsWhite(t[j])
    decreases |t| - i
  {
    if i < |t| && IsWhite(t[i]) then SkipWhite(t, i + 1) else i
  }

  /** The start of the run of white space that ends at `hi`, not going below `lo`. */
  function RetreatWhite(t: seq<char>, lo: nat, hi: nat): (j: nat)
    requires lo <= hi <= |t|
    ensures lo <= j <= hi && AllWhite(t[j..hi])
    ensures lo < j ==> !IsWhite(t[j - 1])
    decreases hi
  {
    if lo < hi && IsWhite(t[hi - 1]) then
      var j := RetreatWhite(t, lo, hi - 1);
      assert t[j..hi] == t[j..hi - 1] + [t[hi - 1]];
      j
    else hi
  }

  /** SkipWhite stops at the end of the run: no white run from `i` goes further. */
  lemma SkipWhiteMaximal(t: seq<char>, i: nat, x: nat)
    requires i <= x <= |t| && AllWhite(t[i..x])
    ensures x <= SkipWhite(t, i)
  {
  }

  /** RetreatWhite stops at the start of the run: no white run ending at or
      after `hi` starts further back, unless `lo` stops it first. */
  lemma RetreatWhiteMinimal(t: seq<char>, lo: nat, hi: nat, x: nat, y: nat)
    requires lo <= x <= y && lo <= hi <= y <= |t| && AllWhite(t[x..y])
    ensures RetreatWhite(t, lo, hi) <= x
  {
  }

  /** `s.trim()`: `s` without its leading and trailing white space. */
  function Trim(s: seq<char>): (r: seq<char>)
    ensures var i := SkipWhite(s, 0);
      i + |r| <= |s| && r == s[i..i + |r|] && AllWhite(s[i + |r|..])
    ensures r != [] ==> !IsWhite(r[0]) && !IsWhite(r[|r| - 1])
  {
    var i := SkipWhite(s, 0);
    var j := RetreatWhite(s, i, |s|);
    assert s[j..] == s[j..|s|];
    assert i < j ==> s[i..j][0] == s[i] && s[i..j][j - i - 1] == s[j - 1];
    assert i < j ==> !IsWhite(s[i]) && !IsWhite(s[j - 1]);
    s[i..j]
  }

  /** `t.replace(pat, '')` with a string pattern: the first occurrence of `pat`,
      if any, is cut out. */
  function ReplaceFirst(t: seq<char>, pat: seq<char>): (r: seq<char>)
    ensures Find(t, pat, 0).None? ==> r == t
    ensures Find(t, pat, 0).Some? ==>
      var i := Find(t, pat, 0).value;
      |r| + |pat| == |t| && r[..i] == t[..i] && r[i..] == t[i + |pat|..]
  {
    match Find(t, pat, 0)
    case None => t
    case Some(i) => t[..i] + t[i + |pat|..]
  }

  /** Trimming yields nothing exactly when the text is all white space. */
  lemma TrimEmptyIffAllWhite(s: seq<char>)
    ensures Trim(s) == [] <==> AllWhite(s)
  {
    var i := SkipWhite(s, 0);
    if Trim(s) == [] {
      assert i == |s|;
      forall k | 0 <= k < |s| ensures IsWhite(s[k]) {
        assert s[k] == s[..i][k];
      }
    } else {
      assert s[i] == Trim(s)[0];
      assert !IsWhite(s[i]);
    }
  }

  /** Trimming twice trims no more than trimming once. */
  lemma TrimIdempotent(s: seq<char>)
    ensures Trim(Trim(s)) == Trim(s)
  {
    var r := Trim(s);
    if r != [] {
      assert SkipWhite(r, 0) == 0;
      assert RetreatWhite(r, 0, |r|) == |r|;
    }
  }

  /** `replace` cuts out exactly the first occurrence: if `pat` occurs at `i` and
      nowhere before, the text around that occurrence is what remains. */
  lemma ReplaceFirstAt(t: seq<char>, pat: seq<char>, i: nat)
    requires StartsAt(t, pat, i)
    requires forall j :: 0 <= j < i ==> !StartsAt(t, pat, j)
    ensures ReplaceFirst(t, pat) == t[..i] + t[i + |pat|..]
    ensures |ReplaceFirst(t, pat)| == |t| - |pat|
  {
    var r := Find(t, pat, 0);
  }

  /** An occurrence at `i` means the first one is at or before `i`, and
      `replace` cuts out that first one. */
  lemma CutFirst(t: seq<char>, pat: seq<char>, i: nat)
    requires StartsAt(t, pat, i)
    ensures var j := Find(t, pat, 0);
      j.Some? && j.value <= i && ReplaceFirst(t, pat) == t[..j.value] + t[j.value + |pat|..]
  {
  }

  /** A slice that ends before the first occurrence from its start holds no
      occurrence of a non-empty pattern. */
  lemma SliceBeforeFind(t: seq<char>, pat: seq<char>, lo: nat, hi: nat)
    requires pat != [] && lo <= hi <= |t|
    requires Find(t, pat, lo).None? || hi <= Find(t, pat, lo).value
    ensures forall i :: 0 <= i ==> !StartsAt(t[lo..hi], pat, i)
  {
    forall i | 0 <= i ensures !StartsAt(t[lo..hi], pat, i) {
      if i + |pat| <= hi - lo {
        assert Find(t, pat, lo).None? || lo + i < Find(t, pat, lo).value;
        assert !StartsAt(t, pat, lo + i);
        var k :| 0 <= k < |pat| && t[lo + i + k] != pat[k];
        assert t[lo..hi][i + k] == t[lo + i + k];
      }
    }
  }

  /** Wherever a text occurs, each of its prefixes occurs too. */
  lemma OccurrenceOfPrefix(t: seq<char>, pat: seq<char>, pre: seq<char>, j: nat)
    requires pre <= pat
    ensures StartsAt(t, pat, j) ==> StartsAt(t, pre, j)
  {
    if StartsAt(t, pat, j) {
      assert t[j..j + |pre|] == pat[..|pre|];
    }
  }

  /** Wherever a non-empty text occurs, its first character is found. */
  lemma OccurrenceHead(t: seq<char>, pat: seq<char>, j: nat)
    requires pat != []
    ensures StartsAt(t, pat, j) ==> t[j] == pat[0]
  {
    if StartsAt(t, pat, j) {
      assert t[j..j + |pat|][0] == t[j];
    }
  }

  /** When `pat` does not occur, `replace` leaves the text alone. */
  lemma ReplaceFirstAbsent(t: seq<char>, pat: seq<char>)
    requires forall j :: 0 <= j ==> !StartsAt(t, pat, j)
    ensures ReplaceFirst(t, pat) == t
  {
    var r := Find(t, pat, 0);
  }
}
