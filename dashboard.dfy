/** The Dashboard page's chat state and its send handler. The handler runs in
    two steps around the awaited request: BeginSend up to the request, and
    CompleteSend once its outcome is known. HandleSend runs both. */
module Dashboard {
  import opened Wrappers
  import opened Strings
  import opened Json
  import opened Fence
  import opened Braces
  import opened Reply

  datatype Role = User | Agent

  datatype Message = Message(role: Role, content: string)

  /** What the handler holds across the request: the message sent and the
      symbol its closure captured. */
  datatype Pending = Pending(message: string, symbol: Value)

  const Greeting := "VANTAGE System Online. Awaiting target asset."
  const InitialSymbol := "NIFTY 50"
  const InitialPrice: real := 24300.50

  /** The number of quotes the idle chart area rotates through. */
  const QuoteCount := 20

  /** The quote shown after the one at `i`, wrapping to the first. */
  function NextQuote(i: nat): (j: nat)
    requires i < QuoteCount
    ensures j < QuoteCount
    ensures j == if i == QuoteCount - 1 then 0 else i + 1
  {
    (i + 1) % QuoteCount
  }

  /** The two extraction stages as the handler runs them: `jsonString` is the
      fenced group, or, when that is missing or empty, the span the brace
      count closes; empty when neither yields anything. */
  method ExtractCandidate(reply: string) returns (codeBlockMatch: Option<Match>, jsonString: string)
    ensures codeBlockMatch == FenceMatch(reply)
    ensures jsonString == if Candidate(reply).Some? then Candidate(reply).value else []
  {
    jsonString := [];
    codeBlockMatch := FenceMatch(reply);
    if codeBlockMatch.Some? {
      jsonString := codeBlockMatch.value.Group(reply);
    }

    if jsonString == [] {
      var span := ScanBraceSpan(reply);
      if span.Some? {
        jsonString := reply[span.value.0..span.value.1];
      }
    }
  }

  class Dashboard {
    var chartData: Value
    var symbol: Value
    var price: Value
    var messages: seq<Message>
    var input: string
    var isProcessing: bool

    constructor ()
      ensures chartData == Arr([]) && symbol == Str(InitialSymbol) && price == Num(InitialPrice)
      ensures messages == [Message(Agent, Greeting)]
      ensures input == [] && !isProcessing
    {
      chartData := Arr([]);
      symbol := Str(InitialSymbol);
      price := Num(InitialPrice);
      messages := [Message(Agent, Greeting)];
      input := [];
      isProcessing := false;
    }

    /** The input box's change handler. */
    method SetInput(text: string)
      modifies this`input
      ensures input == text
    {
      input := text;
    }

    /** The handler up to the request: a blank input does nothing; otherwise
        the user's message is logged, the input cleared and the page marked
        busy. */
    method BeginSend() returns (pending: Option<Pending>)
      modifies this
      ensures Trim(old(input)) == [] ==> pending == None && unchanged(this)
      ensures Trim(old(input)) != [] ==>
        pending == Some(Pending(old(input), old(symbol)))
        && messages == old(messages) + [Message(User, old(input))]
        && input == [] && isProcessing
        && chartData == old(chartData) && symbol == old(symbol) && price == old(price)
    {
      if Trim(input) == [] {
        return None;
      }
      var userMessage := input;
      messages := messages + [Message(User, userMessage)];
      input := [];
      isProcessing := true;
      pending := Some(Pending(userMessage, symbol));
    }

    /** The handler after the request: the reply is scanned for a directive,
        an accepted directive updates the chart, exactly one agent message is
        logged, and the page is no longer busy on every path. */
    method CompleteSend(pending: Pending, outcome: Outcome, parse: string -> Option<Value>)
      modifies this
      ensures var r := Respond(outcome, parse, pending.symbol);
        messages == old(messages) + [Message(Agent, r.text)]
        && chartData == (if r.chart.Some? then r.chart.value else old(chartData))
        && symbol == (if r.symbol.Some? then r.symbol.value else old(symbol))
        && price == (if r.price.Some? then r.price.value else old(price))
      ensures input == old(input) && !isProcessing
    {
      var agentResponse := AgentReply(outcome);
      if agentResponse.None? {
        messages := messages + [Message(Agent, FailureText)];
        isProcessing := false;
        return;
      }
      var reply := agentResponse.value;
      ghost var r := Interpret(reply, parse, pending.symbol);
      assert r == Respond(outcome, parse, pending.symbol);
      var displayMessage := reply;
      var codeBlockMatch, jsonString := ExtractCandidate(reply);

      if jsonString != [] {
        var parsed := parse(jsonString);
        if parsed.Some? && Accepts(parsed.value) {
          assert r == Apply(reply, DisplayText(reply), parsed.value, pending.symbol);
          var threw := ApplyDirective(parsed.value, pending.symbol);
          assert r.chart == Some(chartData) && r.symbol == Some(symbol);
          assert r.price == if PriceUpdate(chartData).SetTo? then Some(price) else None;
          if !threw {
            var removed := if codeBlockMatch.Some? then codeBlockMatch.value.Whole(reply) else jsonString;
            displayMessage := Shown(ReplaceFirst(reply, removed));
          }
          assert r.text == displayMessage;
        } else {
          assert r == Unchanged(reply);
        }
      } else {
        assert r == Unchanged(reply);
      }

      messages := messages + [Message(Agent, displayMessage)];
      isProcessing := false;
    }

    /** An accepted directive: the chart data is replaced by `data`, the symbol
        set, and the price set from the last point when `data` has a positive
        length; `threw` says reading that point's `value` threw. */
    method ApplyDirective(json: Value, captured: Value) returns (threw: bool)
      requires Accepts(json)
      modifies this`chartData, this`symbol, this`price
      ensures chartData == Get(json, Data).value
      ensures symbol == NewSymbol(json, captured)
      ensures price == if PriceUpdate(chartData).SetTo? then PriceUpdate(chartData).price else old(price)
      ensures threw == PriceUpdate(chartData).Throws?
    {
      var data := Get(json, Data).value;
      chartData := data;
      var newSymbol := Get(json, Symbol).value;
      symbol := if Truthy(newSymbol) then newSymbol else captured;
      threw := false;
      var length := NumberValue(Get(data, Length).value);
      if length.Some? && length.value > 0.0 {
        var last := Get(At(data, length.value - 1.0).value, Price);
        if last.None? {
          threw := true;
        } else {
          price := last.value;
        }
      }
    }

    /** The whole handler: a blank input changes nothing; any other input logs
        the user's message and then exactly one agent message, and leaves the
        page idle. */
    method HandleSend(outcome: Outcome, parse: string -> Option<Value>)
      modifies this
      ensures Trim(old(input)) == [] ==> unchanged(this)
      ensures Trim(old(input)) != [] ==>
        var r := Respond(outcome, parse, old(symbol));
        messages == old(messages) + [Message(User, old(input)), Message(Agent, r.text)]
        && chartData == (if r.chart.Some? then r.chart.value else old(chartData))
        && symbol == (if r.symbol.Some? then r.symbol.value else old(symbol))
        && price == (if r.price.Some? then r.price.value else old(price))
        && input == [] && !isProcessing
    {
      var pending := BeginSend();
      if pending.Some? {
        CompleteSend(pending.value, outcome, parse);
      }
    }
  }
}
