/** The fence stage of directive extraction: the regular expression
    /```(?:json)?\s*([\s\S]*?)\s*```/i applied to the agent's reply, written out
    as the backtracking matcher resolves it. */
module Fence {
  import opened Wrappers
  import opened Strings

  const Ticks := "```"

  /** The optional `json` tag right after the opening fence, in any letter case. */
  predicate TagAt(t: seq<char>, i: nat) {
    i + 4 <= |t|
    && (t[i] == 'j' || t[i] == 'J') && (t[i + 1] == 's' || t[i + 1] == 'S')
    && (t[i + 2] == 'o' || t[i + 2] == 'O') && (t[i + 3] == 'n' || t[i + 3] == 'N')
  }

  /** One way of matching the expression: the opening fence at `open`, the tag
      (if taken) ending at `tagEnd`, the captured group `[innerStart, innerEnd)`
      and the closing fence at `close`. */
  datatype Match = Match(open: nat, tagEnd: nat, innerStart: nat, innerEnd: nat, close: nat)
  {
    /** `match[0]`: the whole matched text, both fences included. */
    function Whole(t: seq<char>): seq<char>
      requires open <= close + 3 <= |t|
    {
      t[open..close + 3]
    }

    /** `match[1]`: the captured group. */
    function Group(t: seq<char>): seq<char>
      requires innerStart <= innerEnd <= |t|
    {
      t[innerStart..innerEnd]
    }
  }

  /** `m` is a way for the expression to match `t`: every part of it is where
      the expression says it can be. */
  predicate Matches(t: seq<char>, m: Match) {
    StartsAt(t, Ticks, m.open)
    && (m.tagEnd == m.open + 3 || (m.tagEnd == m.open + 7 && TagAt(t, m.open + 3)))
    && m.tagEnd <= m.innerStart <= m.innerEnd <= m.close
    && StartsAt(t, Ticks, m.close)
    && AllWhite(t[m.tagEnd..m.innerStart])
    && AllWhite(t[m.innerEnd..m.close])
  }

  /** The match `String.prototype.match` returns, or None when there is none.
      The leftmost opening fence is the first one followed by a second fence;
      the tag is taken when a fence still follows it; the first `\s*` takes all
      the white space it can, and the lazy group stops at the white space
      before the first closing fence. */
  function FenceMatch(t: seq<char>): (r: Option<Match>)
    ensures r.Some? ==> Matches(t, r.value)
  {
    match Find(t, Ticks, 0)
    case None => None
    case Some(p) =>
      if Find(t, Ticks, p + 3).None? then None
      else
        var e := if TagAt(t, p + 3) && Find(t, Ticks, p + 7).Some? then p + 7 else p + 3;
        var s := SkipWhite(t, e);
        match Find(t, Ticks, s)
        case None => None
        case Some(c) => Some(Match(p, e, s, RetreatWhite(t, s, c), c))
  }

  /** A fence at or after `from` is also at or after the end of the white run
      that starts at `from`, since a backtick is not white space. */
  lemma FindPastWhite(t: seq<char>, from: nat)
    requires from <= |t|
    ensures Find(t, Ticks, SkipWhite(t, from)) == Find(t, Ticks, from)
  {
    var s := SkipWhite(t, from);
    forall i | from <= i < s ensures !StartsAt(t, Ticks, i) {
      assert IsWhite(t[from..s][i - from]);
      OccurrenceHead(t, Ticks, i);
    }
    var a, b := Find(t, Ticks, from), Find(t, Ticks, s);
    if a.Some? && b.Some? {
      assert a.value >= s;
    }
  }

  /** A second fence at least three characters after the first one is enough
      for a match, and the match opens at the first fence. */
  lemma FenceFound(t: seq<char>, p: nat, c: nat)
    requires Find(t, Ticks, 0) == Some(p) && p + 3 <= c && StartsAt(t, Ticks, c)
    ensures FenceMatch(t).Some? && FenceMatch(t).value.open == p
  {
    assert Find(t, Ticks, p + 3).Some?;
    var e := if TagAt(t, p + 3) && Find(t, Ticks, p + 7).Some? then p + 7 else p + 3;
    assert Find(t, Ticks, e).Some?;
    FindPastWhite(t, e);
  }

  /** Whenever the expression can match at all, FenceMatch finds a match, and
      no way of matching starts before the one it returns. */
  lemma FenceMatchLeftmost(t: seq<char>, m: Match)
    requires Matches(t, m)
    ensures FenceMatch(t).Some? && FenceMatch(t).value.open <= m.open
  {
    var p := Find(t, Ticks, 0).value;
    FenceFound(t, p, m.close);
  }

  /** Among the ways of matching at the same opening fence, FenceMatch returns
      the one the backtracking matcher tries first: the tag when it can be
      taken, then the longest leading white run, then the shortest group. */
  lemma {:induction false} FenceMatchPreferred(t: seq<char>, m: Match)
    requires Matches(t, m)
    requires FenceMatch(t).Some? && m.open == FenceMatch(t).value.open
    ensures var f := FenceMatch(t).value;
      (m.tagEnd == m.open + 7 ==> f.tagEnd == f.open + 7)
      && (m.tagEnd == f.tagEnd ==> m.innerStart <= f.innerStart)
      && (m.tagEnd == f.tagEnd && m.innerStart == f.innerStart ==> f.innerEnd <= m.innerEnd)
  {
    var f := FenceMatch(t).value;
    var p := f.open;
    if m.tagEnd == p + 7 {
      assert StartsAt(t, Ticks, m.close);
    }
    if m.tagEnd == f.tagEnd {
      SkipWhiteMaximal(t, f.tagEnd, m.innerStart);
      if m.innerStart == f.innerStart {
        assert StartsAt(t, Ticks, m.close);
        assert f.close <= m.close;
        RetreatWhiteMinimal(t, f.innerStart, f.close, m.innerEnd, m.close);
      }
    }
  }

  /** The fenced candidate holds no triple backtick and neither begins nor ends
      with white space. */
  lemma FencedCandidateShape(t: seq<char>)
    requires FenceMatch(t).Some?
    ensures var g := FenceMatch(t).value.Group(t);
      (forall i :: 0 <= i ==> !StartsAt(g, Ticks, i))
      && (g != [] ==> !IsWhite(g[0]) && !IsWhite(g[|g| - 1]))
  {
    var f := FenceMatch(t).value;
    SliceBeforeFind(t, Ticks, f.innerStart, f.innerEnd);
    if f.innerStart < f.innerEnd {
      assert f.Group(t)[0] == t[f.innerStart];
      assert f.Group(t)[f.innerEnd - f.innerStart - 1] == t[f.innerEnd - 1];
    }
  }

  /** The whole match first occurs where the match starts, so replacing its
      first occurrence cuts out exactly the fenced block. */
  lemma FenceRemovedAtOpen(t: seq<char>)
    requires FenceMatch(t).Some?
    ensures var f := FenceMatch(t).value;
      ReplaceFirst(t, f.Whole(t)) == t[..f.open] + t[f.close + 3..]
  {
    var f := FenceMatch(t).value;
    var w := f.Whole(t);
    forall j | 0 <= j < f.open ensures !StartsAt(t, w, j) {
      OccurrenceOfPrefix(t, w, Ticks, j);
    }
    ReplaceFirstAt(t, w, f.open);
  }
}
