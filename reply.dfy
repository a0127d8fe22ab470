/** What one agent reply does: the candidate directive extracted from it, the
    text shown for it, and the chart state it sets. `JSON.parse` is not
    modelled; it is the parameter `parse`, whose None stands for a thrown
    SyntaxError. */
module Reply {
  import opened Wrappers
  import opened Strings
  import opened Json
  import opened Fence
  import opened Braces

  const UpdateChart := "update_chart"
  const Placeholder := "Chart updated."
  const FailureText := "Uplink failed. Retrying connection..."

  /** How the request to the agent ended. All but `Body` throw inside the
      handler's outer `try`: `fetch` rejecting, a response that is not ok, and
      a body `response.json()` cannot parse. */
  datatype Outcome = NetworkError | NotOk | MalformedBody | Body(body: Value)

  /** What one reply changes: the agent message's text, and for each of
      `chartData`, `symbol` and `price` the new value, or None when it is not
      set. */
  datatype Reaction = Reaction(text: string, chart: Option<Value>, symbol: Option<Value>, price: Option<Value>)

  function Unchanged(text: string): Reaction {
    Reaction(text, None, None, None)
  }

  /** `jsonString` once both stages have run: the fenced group if it is not
      empty, otherwise the brace candidate. None stands for the falsy values
      `null` and `""`. */
  function Candidate(t: string): (r: Option<string>)
    ensures r.Some? ==> r.value != []
  {
    var fenced := if FenceMatch(t).Some? then FenceMatch(t).value.Group(t) else [];
    if fenced != [] then Some(fenced)
    else
      match BraceSpan(t)
      case None => None
      case Some((lo, hi)) => Some(t[lo..hi])
  }

  /** The trimmed text, or the placeholder when nothing is left. */
  function Shown(s: string): (r: string)
    ensures r != []
    ensures r == if AllWhite(s) then Placeholder else Trim(s)
  {
    TrimEmptyIffAllWhite(s);
    var trimmed := Trim(s);
    if trimmed == [] then Placeholder else trimmed
  }

  /** The message shown for an accepted directive: the reply without the first
      occurrence of the whole fenced block when the expression matched, and
      otherwise without the first occurrence of the candidate. */
  function DisplayText(t: string): (r: string)
    requires Candidate(t).Some?
    ensures r != []
    ensures r == Placeholder || (!IsWhite(r[0]) && !IsWhite(r[|r| - 1]))
  {
    var removed := if FenceMatch(t).Some? then FenceMatch(t).value.Whole(t) else Candidate(t).value;
    Shown(ReplaceFirst(t, removed))
  }

  /** The directive is applied: the `action` member is exactly the string
      "update_chart" and the `data` member is truthy. */
  function Accepts(json: Value): (b: bool)
    ensures b ==> !json.Nullish() && Get(json, Data).Some? && !Get(json, Data).value.Nullish()
  {
    !json.Nullish()
    && Get(json, Action) == Some(Str(UpdateChart))
    && Truthy(Get(json, Data).value)
  }

  /** What `if (data.length > 0) setPrice(data[data.length - 1].value)` does:
      nothing when the length is not above zero, a new price, or a TypeError
      when the last point is `null` or `undefined`. */
  datatype PriceStep = Keep | SetTo(price: Value) | Throws

  function PriceUpdate(data: Value): (r: PriceStep)
    requires !data.Nullish()
    ensures data.Arr? ==> (r.Keep? <==> data.items == [])
  {
    var length := NumberValue(Get(data, Length).value);
    if length.Some? && length.value > 0.0 then
      match Get(At(data, length.value - 1.0).value, Price)
      case None => Throws
      case Some(p) => SetTo(p)
    else Keep
  }

  /** The symbol after an accepted directive: its own when truthy, else the
      one the handler's closure captured. */
  function NewSymbol(json: Value, captured: Value): (r: Value)
    requires !json.Nullish()
    ensures Truthy(Get(json, Symbol).value) ==> r == Get(json, Symbol).value
    ensures !Truthy(Get(json, Symbol).value) ==> r == captured
    ensures Truthy(captured) ==> Truthy(r)
  {
    var symbol := Get(json, Symbol).value;
    if Truthy(symbol) then symbol else captured
  }

  /** A parsed candidate: reading `action` from `null` throws before anything
      is set; an accepted directive sets the chart data and the symbol, then
      the price; if reading the last point's `value` throws, those two stay
      set and the text stays as it came. */
  function Apply(reply: string, shown: string, json: Value, captured: Value): (r: Reaction)
    ensures r.chart.None? <==> !Accepts(json)
    ensures r.chart.None? ==> r == Unchanged(reply)
    ensures r.chart.Some? ==> r.chart == Get(json, Data) && r.symbol == Some(NewSymbol(json, captured))
    ensures r.price.Some? ==> r.text == shown
    ensures r.text == reply || r.text == shown
  {
    if !Accepts(json) then Unchanged(reply)
    else
      var data := Get(json, Data).value;
      match PriceUpdate(data)
      case Keep => Reaction(shown, Some(data), Some(NewSymbol(json, captured)), None)
      case SetTo(p) => Reaction(shown, Some(data), Some(NewSymbol(json, captured)), Some(p))
      case Throws => Reaction(reply, Some(data), Some(NewSymbol(json, captured)), None)
  }

  /** Extract, parse and apply the directive in one reply.
      `captured` is the symbol the handler's closure saw. */
  function Interpret(reply: string, parse: string -> Option<Value>, captured: Value): (r: Reaction)
    ensures r.chart.None? ==> r == Unchanged(reply)
    ensures r.chart.Some? ==> Candidate(reply).Some? && r.symbol.Some?
    ensures r.text == reply || (Candidate(reply).Some? && r.text == DisplayText(reply))
  {
    match Candidate(reply)
    case None => Unchanged(reply)
    case Some(c) =>
      match parse(c)
      case None => Unchanged(reply)
      case Some(json) => Apply(reply, DisplayText(reply), json, captured)
  }

  /** `data.response` when the request succeeded with a string in it; None
      when the outer `catch` runs instead, including when `response` is not a
      string and calling `match` on it throws. */
  function AgentReply(outcome: Outcome): (r: Option<string>)
    ensures r.Some? <==> outcome.Body? && Get(outcome.body, Response).Some?
                         && Get(outcome.body, Response).value.Str?
    ensures r.Some? ==> Get(outcome.body, Response) == Some(Str(r.value))
  {
    match outcome
    case Body(body) =>
      (match Get(body, Response)
       case Some(Str(s)) => Some(s)
       case _ => None)
    case _ => None
  }

  /** The agent message and the chart state for one request. */
  function Respond(outcome: Outcome, parse: string -> Option<Value>, captured: Value): (r: Reaction)
    ensures AgentReply(outcome).None? ==> r == Unchanged(FailureText)
    ensures r.chart.None? ==> r.symbol.None? && r.price.None?
    ensures r.chart.Some? ==> AgentReply(outcome).Some? && r.symbol.Some?
  {
    match AgentReply(outcome)
    case None => Unchanged(FailureText)
    case Some(reply) => Interpret(reply, parse, captured)
  }

  /** When the fence yields a non-empty group, that group is the candidate:
      it holds no triple backtick and has no white space at either end. */
  lemma FencedCandidate(t: string)
    requires FenceMatch(t).Some? && FenceMatch(t).value.Group(t) != []
    ensures var g := FenceMatch(t).value.Group(t);
      Candidate(t) == Some(g)
      && (forall i :: 0 <= i ==> !StartsAt(g, Ticks, i))
      && !IsWhite(g[0]) && !IsWhite(g[|g| - 1])
  {
    FencedCandidateShape(t);
  }

  /** When the fence yields nothing or an empty group, the candidate is the
      brace span, and there is none without a span. A span candidate
      opens with `{`, closes with `}` and holds as many of one as of the
      other. */
  lemma BraceCandidate(t: string)
    requires FenceMatch(t).None? || FenceMatch(t).value.Group(t) == []
    ensures Candidate(t) == match BraceSpan(t)
      case None => None
      case Some((lo, hi)) => Some(t[lo..hi])
    ensures BraceSpan(t).Some? ==> var c := Candidate(t).value;
      c[0] == '{' && c[|c| - 1] == '}' && multiset(c)['{'] == multiset(c)['}']
  {
    if BraceSpan(t).Some? {
      BraceSliceShape(t);
    }
  }

  /** The brace span read as a slice: it opens with `{`, closes with `}` and
      is balanced. */
  lemma BraceSliceShape(t: string)
    requires BraceSpan(t).Some?
    ensures var (lo, hi) := BraceSpan(t).value;
      var c := t[lo..hi];
      c[0] == '{' && c[|c| - 1] == '}' && multiset(c)['{'] == multiset(c)['}']
  {
    var (lo, hi) := BraceSpan(t).value;
    BraceSpanStart(t);
    BraceSpanBalanced(t);
    assert t[lo..hi][0] == t[lo] && t[lo..hi][hi - lo - 1] == t[hi - 1];
  }

  /** A reply with no candidate, a candidate that does not parse, or one that
      is not an accepted directive sets no chart state and is shown verbatim. */
  lemma RejectedReplyShownVerbatim(reply: string, parse: string -> Option<Value>, captured: Value)
    requires Candidate(reply).None? || parse(Candidate(reply).value).None?
             || !Accepts(parse(Candidate(reply).value).value)
    ensures Interpret(reply, parse, captured) == Unchanged(reply)
  {
  }

  /** An accepted directive whose data is an array replaces the chart data
      with it and sets the symbol, falling back to the captured one. An empty
      array leaves the price alone; otherwise the price becomes the last
      point's `value`, and a null last point throws, leaving the reply shown
      verbatim with chart data and symbol already set. */
  lemma AcceptedArrayDirective(reply: string, parse: string -> Option<Value>, captured: Value,
                               json: Value, items: seq<Value>)
    requires Candidate(reply).Some? && parse(Candidate(reply).value) == Some(json)
    requires Accepts(json) && Get(json, Data) == Some(Arr(items))
    ensures var r := Interpret(reply, parse, captured);
      var symbol := Get(json, Symbol).value;
      r.chart == Some(Arr(items))
      && r.symbol == Some(if Truthy(symbol) then symbol else captured)
      && (items == [] ==> r.price == None && r.text == DisplayText(reply))
      && (items != [] && !items[|items| - 1].Nullish() ==>
            r.price == Get(items[|items| - 1], Price) && r.text == DisplayText(reply))
      && (items != [] && items[|items| - 1].Nullish() ==> r.price == None && r.text == reply)
  {
    assert Interpret(reply, parse, captured) == Apply(reply, DisplayText(reply), json, captured);
    PriceOfArray(items);
  }

  /** For an array, `data.length > 0` is non-emptiness and
      `data[data.length - 1]` the last point. */
  lemma PriceOfArray(items: seq<Value>)
    ensures items == [] ==> PriceUpdate(Arr(items)) == Keep
    ensures items != [] ==>
      PriceUpdate(Arr(items)) ==
        match Get(items[|items| - 1], Price) case None => Throws case Some(p) => SetTo(p)
  {
    var n := |items| as real;
    assert NumberValue(Get(Arr(items), Length).value) == Some(n);
    if items != [] {
      assert ((|items| - 1) as real) == n - 1.0;
      assert IsIndex(n - 1.0, |items|);
      assert At(Arr(items), n - 1.0) == Some(items[|items| - 1]);
    }
  }

  /** The text shown for an accepted directive is never empty. */
  lemma AcceptedTextNotEmpty(reply: string, parse: string -> Option<Value>, captured: Value)
    requires Candidate(reply).Some? && parse(Candidate(reply).value).Some?
    requires Accepts(parse(Candidate(reply).value).value)
    requires !PriceUpdate(Get(parse(Candidate(reply).value).value, Data).value).Throws?
    ensures Interpret(reply, parse, captured).text == DisplayText(reply) != []
  {
  }

  /** When the expression matched, the text shown is the reply without the
      fenced block, trimmed, or the placeholder; this holds also when the
      fenced group was empty and the brace stage supplied the candidate. */
  lemma DisplayTextWithoutFence(t: string)
    requires Candidate(t).Some? && FenceMatch(t).Some?
    ensures var f := FenceMatch(t).value;
      DisplayText(t) == Shown(t[..f.open] + t[f.close + 3..])
  {
    FenceRemovedAtOpen(t);
  }

  /** Without a fence, the candidate is the brace span `[lo, hi)`, and the
      text shown is the reply without the first occurrence of the candidate,
      trimmed, or the placeholder. That occurrence starts at or before `lo`. */
  lemma DisplayTextWithoutBraces(t: string, lo: nat, hi: nat)
    requires FenceMatch(t).None? && BraceSpan(t) == Some((lo, hi))
    ensures Candidate(t) == Some(t[lo..hi])
    ensures var j := Find(t, t[lo..hi], 0);
      j.Some? && j.value <= lo
      && ReplaceFirst(t, t[lo..hi]) == t[..j.value] + t[j.value + hi - lo..]
      && DisplayText(t) == Shown(ReplaceFirst(t, t[lo..hi]))
  {
    CutFirst(t, t[lo..hi], lo);
  }

  /** A request that fails, or whose body has no string `response`, shows the
      failure message and sets no chart state. */
  lemma FailedRequestShowsFailure(outcome: Outcome, parse: string -> Option<Value>, captured: Value)
    requires !outcome.Body? || !Get(outcome.body, Response).Some? || !Get(outcome.body, Response).value.Str?
    ensures Respond(outcome, parse, captured) == Unchanged(FailureText)
  {
  }
}
