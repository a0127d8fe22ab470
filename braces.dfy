/** The brace stage of directive extraction: anchored on the first occurrence
    of the literal `"action": "update_chart"`, it backs up to the last `{`
    before it and counts braces forward until the count returns to zero.
    Braces inside string literals are counted like any other. */
module Braces {
  import opened Wrappers
  import opened Strings

  const ActionLiteral := "\"action\": \"update_chart\""

  /** How much one character moves the running brace count. */
  function Delta(c: char): int {
    if c == '{' then 1 else if c == '}' then -1 else 0
  }

  /** The brace count after `s`: its `{` minus its `}`. */
  function Depth(s: seq<char>): int {
    multiset(s)['{'] as int - multiset(s)['}'] as int
  }

  /** The running count of the loop started at `lo` once it has read up to,
      not including, index `k`. */
  function Level(t: seq<char>, lo: nat, k: nat): int
    requires lo <= k <= |t|
    decreases k
  {
    if k == lo then 0 else Level(t, lo, k - 1) + Delta(t[k - 1])
  }

  /** The running count is the brace count of what it has read. */
  lemma {:induction false} LevelIsDepth(t: seq<char>, lo: nat, k: nat)
    requires lo <= k <= |t|
    ensures Level(t, lo, k) == Depth(t[lo..k])
    decreases k
  {
    if k > lo {
      LevelIsDepth(t, lo, k - 1);
      assert t[lo..k] == t[lo..k - 1] + [t[k - 1]];
      assert multiset(t[lo..k]) == multiset(t[lo..k - 1]) + multiset{t[k - 1]};
    }
  }

  /** The rest of the counting loop: from index `i` with count `count`, the
      first index at which the count, after counting that index, is zero. */
  function CloseFrom(t: seq<char>, i: nat, count: int): (r: Option<nat>)
    requires i <= |t|
    ensures r.Some? ==> i <= r.value < |t|
    decreases |t| - i
  {
    if i == |t| then None
    else if count + Delta(t[i]) == 0 then Some(i)
    else CloseFrom(t, i + 1, count + Delta(t[i]))
  }

  /** The index of the brace that closes the one at `start`, if the count ever
      returns to zero. */
  function ClosingBrace(t: seq<char>, start: nat): (r: Option<nat>)
    requires start <= |t|
    ensures r.Some? ==> start <= r.value < |t|
  {
    CloseFrom(t, start, 0)
  }

  /** The counting loop as written: `braceCount` and `endBrace` updated in
      place, leaving the loop at the first zero count. */
  method ScanBraces(t: seq<char>, start: nat) returns (endBrace: Option<nat>)
    requires start <= |t|
    ensures endBrace == ClosingBrace(t, start)
  {
    var braceCount := 0;
    endBrace := None;
    var i := start;
    while i < |t|
      invariant start <= i <= |t|
      invariant CloseFrom(t, i, braceCount) == ClosingBrace(t, start)
      invariant endBrace == None
    {
      if t[i] == '{' {
        braceCount := braceCount + 1;
      } else if t[i] == '}' {
        braceCount := braceCount - 1;
      }
      if braceCount == 0 {
        endBrace := Some(i);
        break;
      }
      i := i + 1;
    }
  }

  /** Once the count has stayed positive so far, the index the loop stops at is
      the first where it returns to zero, and without one it stays positive to
      the end of the text. */
  lemma {:induction false} CloseFromBalances(t: seq<char>, start: nat, i: nat)
    requires start < i <= |t|
    requires forall k :: start < k <= i ==> Level(t, start, k) > 0
    ensures var r := CloseFrom(t, i, Level(t, start, i));
      (r.Some? ==> i <= r.value < |t| && Level(t, start, r.value + 1) == 0
                   && forall k :: start < k <= r.value ==> Level(t, start, k) > 0)
      && (r.None? ==> forall k :: start < k <= |t| ==> Level(t, start, k) > 0)
    decreases |t| - i
  {
    if i < |t| {
      if Level(t, start, i + 1) != 0 {
        CloseFromBalances(t, start, i + 1);
      }
    }
  }

  /** The closing brace is the first index where the count returns to zero:
      the braces of the span are balanced and every proper prefix is deeper. */
  lemma ClosingBraceBalances(t: seq<char>, start: nat)
    requires start < |t| && t[start] == '{'
    ensures var r := ClosingBrace(t, start);
      (r.Some? ==> start < r.value < |t| && Level(t, start, r.value + 1) == 0
                   && forall k :: start < k <= r.value ==> Level(t, start, k) > 0)
      && (r.None? ==> forall k :: start < k <= |t| ==> Level(t, start, k) > 0)
  {
    assert Level(t, start, start) == 0;
    CloseFromBalances(t, start, start + 1);
  }

  /** The span `[lo, hi)` of the brace candidate, or None. */
  function BraceSpan(t: seq<char>): (r: Option<(nat, nat)>)
    ensures r.Some? ==> r.value.0 < r.value.1 <= |t|
  {
    match Find(t, ActionLiteral, 0)
    case None => None
    case Some(a) =>
      match LastIndexOf(t, '{', a)
      case None => None
      case Some(lo) =>
        match ClosingBrace(t, lo)
        case None => None
        case Some(hi) => Some((lo, hi + 1))
  }

  /** The brace stage as written: find the literal, back up to the last `{`
      before it and run the counting loop from there. */
  method ScanBraceSpan(t: seq<char>) returns (span: Option<(nat, nat)>)
    ensures span == BraceSpan(t)
  {
    span := None;
    var actionIndex := Find(t, ActionLiteral, 0);
    if actionIndex.Some? {
      var startBrace := LastIndexOf(t, '{', actionIndex.value);
      if startBrace.Some? {
        var endBrace := ScanBraces(t, startBrace.value);
        if endBrace.Some? {
          span := Some((startBrace.value, endBrace.value + 1));
        }
      }
    }
  }

  /** A brace candidate starts at the last `{` strictly before the first
      occurrence of the literal. */
  lemma BraceSpanStart(t: seq<char>)
    requires BraceSpan(t).Some?
    ensures var lo := BraceSpan(t).value.0;
      var a := Find(t, ActionLiteral, 0).value;
      lo < a && t[lo] == '{' && (forall j :: lo < j <= a ==> t[j] != '{')
  {
    var a := Find(t, ActionLiteral, 0).value;
    OccurrenceHead(t, ActionLiteral, a);
    assert BraceSpan(t).value.0 == LastIndexOf(t, '{', a).value;
  }

  /** The span a closing brace closes: it ends with `}`, has as many `{` as
      `}`, and every proper prefix of it holds more `{` than `}`. */
  lemma ClosedSpan(t: seq<char>, lo: nat, r: nat)
    requires lo < |t| && t[lo] == '{' && ClosingBrace(t, lo) == Some(r)
    ensures lo < r < |t| && t[r] == '}'
    ensures multiset(t[lo..r + 1])['{'] == multiset(t[lo..r + 1])['}']
    ensures forall k :: lo < k <= r ==> Level(t, lo, k) > 0
  {
    ClosingBraceBalances(t, lo);
    assert Level(t, lo, r) > 0;
    LevelIsDepth(t, lo, r + 1);
  }

  /** A brace candidate ends with `}`, has as many `{` as `}`, and every
      proper prefix of it holds more `{` than `}`. */
  lemma BraceSpanBalanced(t: seq<char>)
    requires BraceSpan(t).Some?
    ensures var (lo, hi) := BraceSpan(t).value;
      lo + 2 <= hi <= |t| && t[hi - 1] == '}'
      && multiset(t[lo..hi])['{'] == multiset(t[lo..hi])['}']
  {
    var a := Find(t, ActionLiteral, 0).value;
    var lo := LastIndexOf(t, '{', a).value;
    var r := ClosingBrace(t, lo).value;
    assert BraceSpan(t).value == (lo, r + 1);
    ClosedSpan(t, lo, r);
  }

  /** Every proper prefix of a brace candidate holds more `{` than `}`. */
  lemma BraceSpanDeeper(t: seq<char>)
    requires BraceSpan(t).Some?
    ensures var (lo, hi) := BraceSpan(t).value;
      forall k :: lo < k < hi ==> Depth(t[lo..k]) > 0
  {
    var a := Find(t, ActionLiteral, 0).value;
    var lo := LastIndexOf(t, '{', a).value;
    var r := ClosingBrace(t, lo).value;
    assert BraceSpan(t).value == (lo, r + 1);
    ClosedSpan(t, lo, r);
    forall k | lo < k < r + 1 ensures Depth(t[lo..k]) > 0 {
      LevelIsDepth(t, lo, k);
    }
  }

  /** There is no brace candidate exactly when the literal is absent, no `{`
      comes before its first occurrence, or the count never returns to zero. */
  lemma BraceSpanAbsent(t: seq<char>)
    ensures BraceSpan(t).None? <==>
      match Find(t, ActionLiteral, 0)
      case None => true
      case Some(a) =>
        (forall j :: 0 <= j <= a ==> t[j] != '{')
        || (var lo := LastIndexOf(t, '{', a).value;
            forall k :: lo < k <= |t| ==> Level(t, lo, k) > 0)
  {
    var fa := Find(t, ActionLiteral, 0);
    if fa.Some? {
      var a := fa.value;
      OccurrenceHead(t, ActionLiteral, a);
      var fl := LastIndexOf(t, '{', a);
      if fl.Some? {
        var lo := fl.value;
        assert !(forall j :: 0 <= j <= a ==> t[j] != '{') by { assert t[lo] == '{'; }
        ClosingBraceBalances(t, lo);
        var r := ClosingBrace(t, lo);
        if r.Some? {
          assert Level(t, lo, r.value + 1) == 0;
        }
      }
    }
  }
}
