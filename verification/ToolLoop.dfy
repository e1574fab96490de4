/** The bounded tool-calling loop of the greeting translation: it must hand the model a transcript in
    which every tool call has been answered. */
module ToolLoop {
  import opened Options
  import opened Text
  import opened TextLaws

  const MAX_TOOL_ITERATIONS := 3

  /** One tool call of a reply. Every part may be missing. */
  datatype Call = Call(id: Option<string>, name: Option<string>, arguments: Option<string>)

  datatype Reply = Reply(content: Option<string>, calls: seq<Call>)

  datatype Message = Prompt(text: string) | Assistant(reply: Reply) | ToolResult(callId: string, result: string)

  /** Everything the loop asks of others: the n-th completion (None when it raises), parsing a JSON
      document (None when it is not one), and the result of the n-th tool invocation, as JSON. */
  datatype Outside = Outside(complete: (nat, seq<Message>) -> Option<Reply>,
                             parse: string -> Option<string>,
                             invoke: (nat, string, string) -> string)

  function OrElse(s: Option<string>, other: string): string {
    if s.Some? then s.value else other
  }

  function NameOf(call: Call): string {
    OrElse(call.name, "")
  }

  function IdOf(call: Call): string {
    OrElse(call.id, "")
  }

  /** The parsed arguments; the empty object when they are missing, empty or not JSON. */
  function ArgumentsOf(call: Call, outside: Outside): string {
    var raw := OrElse(call.arguments, "");
    OrElse(outside.parse(if raw == "" then "{}" else raw), "{}")
  }

  /** `content.strip() if content else None` */
  function TextOf(reply: Reply): Option<string> {
    if reply.content.Some? && reply.content.value != "" then Some(Strip(reply.content.value)) else None
  }

  // ---------------------------------------------------------------- well-formed transcripts

  /** The messages at the front answer these calls, one each, in order and with matching ids. */
  predicate Answers(calls: seq<Call>, results: seq<Message>) {
    && |results| == |calls|
    && forall i :: 0 <= i < |calls| ==>
         results[i].ToolResult? && results[i].callId == if calls[i].id.Some? then calls[i].id.value else ""
  }

  /** Every message with tool calls is followed by exactly its results, and no result stands alone. */
  predicate WellFormed(messages: seq<Message>)
    decreases |messages|
  {
    if messages == [] then true
    else
      match messages[0]
      case Prompt(_) => WellFormed(messages[1..])
      case ToolResult(_, _) => false
      case Assistant(reply) =>
        var n := |reply.calls|;
        |messages| > n && Answers(reply.calls, messages[1..1 + n]) && WellFormed(messages[1 + n..])
  }

  /** The names of all tools called in a transcript, in order. */
  function CalledNames(messages: seq<Message>): seq<string> {
    if messages == [] then []
    else (if messages[0].Assistant? then Names(messages[0].reply.calls) else []) + CalledNames(messages[1..])
  }

  function Names(calls: seq<Call>): seq<string> {
    if calls == [] then [] else [NameOf(calls[0])] + Names(calls[1..])
  }

  /** The results of a reply's calls, `from` invocations having been made before. */
  function Results(outside: Outside, calls: seq<Call>, from: nat): seq<Message> {
    if calls == [] then []
    else
      [ToolResult(IdOf(calls[0]), outside.invoke(from, NameOf(calls[0]), ArgumentsOf(calls[0], outside)))]
      + Results(outside, calls[1..], from + 1)
  }

  /** The piece of transcript that these replies and the results of their calls make. */
  function Exchange(outside: Outside, replies: seq<Reply>): seq<Message> {
    if replies == [] then []
    else
      var before := Exchange(outside, replies[..|replies| - 1]);
      var last := replies[|replies| - 1];
      before + ([Assistant(last)] + Results(outside, last.calls, |CalledNames(before)|))
  }

  lemma {:induction false} WellFormedConcat(a: seq<Message>, b: seq<Message>)
    requires WellFormed(a) && WellFormed(b)
    ensures WellFormed(a + b)
    decreases |a|
  {
    hide Answers, WellFormed;
    if a == [] {
      assert a + b == b;
    } else {
      var n := if a[0].Assistant? then |a[0].reply.calls| else 0;
      WellFormedTail(a);
      WellFormedConcat(a[1 + n..], b);
      assert (a + b)[1..1 + n] == a[1..1 + n];
      assert (a + b)[1 + n..] == a[1 + n..] + b;
      WellFormedFront(a + b);
    }
  }

  predicate StartsGroup(messages: seq<Message>)
    requires messages != []
  {
    match messages[0]
    case Prompt(_) => true
    case ToolResult(_, _) => false
    case Assistant(reply) => |messages| > |reply.calls| && Answers(reply.calls, messages[1..1 + |reply.calls|])
  }

  lemma WellFormedTail(messages: seq<Message>)
    requires messages != [] && WellFormed(messages)
    ensures StartsGroup(messages)
    ensures WellFormed(messages[1 + if messages[0].Assistant? then |messages[0].reply.calls| else 0..])
  {
    hide Answers;
  }

  lemma WellFormedFront(messages: seq<Message>)
    requires messages != [] && StartsGroup(messages)
    requires WellFormed(messages[1 + if messages[0].Assistant? then |messages[0].reply.calls| else 0..])
    ensures WellFormed(messages)
  {
    hide Answers;
  }

  lemma {:induction false} CalledNamesConcat(a: seq<Message>, b: seq<Message>)
    ensures CalledNames(a + b) == CalledNames(a) + CalledNames(b)
  {
    hide Names;
    if a == [] {
      assert a + b == b;
    } else {
      CalledNamesConcat(a[1..], b);
      assert (a + b)[1..] == a[1..] + b;
    }
  }

  lemma {:induction false} ResultsAnswer(outside: Outside, calls: seq<Call>, from: nat)
    ensures Answers(calls, Results(outside, calls, from))
    ensures CalledNames(Results(outside, calls, from)) == []
  {
    if calls != [] {
      ResultsAnswer(outside, calls[1..], from + 1);
      assert Results(outside, calls, from)[1..] == Results(outside, calls[1..], from + 1);
    }
  }

  /** The arguments a call passes on: what its argument text parses to; the empty object if there is no
      text, an empty one, or one that does not parse. `{}` parses to itself. */
  predicate PassesOn(call: Call, outside: Outside, arguments: string) {
    if call.arguments.None? || call.arguments.value == "" || outside.parse(call.arguments.value).None?
    then arguments == "{}"
    else Some(arguments) == outside.parse(call.arguments.value)
  }

  /** The k-th call makes the k-th invocation from `from` on, under its own name and with its own
      arguments; its name is recorded and the result carries its id. */
  lemma ResultsExact(outside: Outside, calls: seq<Call>, from: nat, k: nat)
    requires k < |calls| && outside.parse("{}") == Some("{}")
    ensures var call, results := calls[k], Results(outside, calls, from);
            var name := if call.name.Some? then call.name.value else "";
            && |results| == |Names(calls)| == |calls| && Names(calls)[k] == name
            && exists arguments :: PassesOn(call, outside, arguments)
                 && results[k] == ToolResult(if call.id.Some? then call.id.value else "",
                                             outside.invoke(from + k, name, arguments))
  {
    hide PassesOn, ArgumentsOf, Results, Names;
    ResultAt(outside, calls, from, k);
    ArgumentsPassedOn(calls[k], outside);
  }

  lemma {:induction false} ResultAt(outside: Outside, calls: seq<Call>, from: nat, k: nat)
    requires k < |calls|
    ensures |Results(outside, calls, from)| == |Names(calls)| == |calls|
    ensures Names(calls)[k] == NameOf(calls[k])
    ensures Results(outside, calls, from)[k]
         == ToolResult(IdOf(calls[k]), outside.invoke(from + k, NameOf(calls[k]), ArgumentsOf(calls[k], outside)))
  {
    hide ArgumentsOf, NameOf, IdOf;
    if k > 0 {
      ResultAt(outside, calls[1..], from + 1, k - 1);
    } else {
      NamesLength(calls);
      ResultsLength(outside, calls, from);
    }
  }

  lemma ResultsLength(outside: Outside, calls: seq<Call>, from: nat)
    ensures |Results(outside, calls, from)| == |calls|
  {
    hide Results;
    ResultsAnswer(outside, calls, from);
  }

  lemma ArgumentsPassedOn(call: Call, outside: Outside)
    requires outside.parse("{}") == Some("{}")
    ensures PassesOn(call, outside, ArgumentsOf(call, outside))
  {
  }

  /** The text of the last reply: its content without the white space at its ends, none if it is missing
      or empty. */
  lemma TextExact(reply: Reply, text: string)
    ensures TextOf(reply) == Some(text) <==>
            reply.content.Some? && reply.content.value != "" && Trims(reply.content.value, text)
  {
    hide Strip, Trims;
    if reply.content.Some? {
      StripExact(reply.content.value, text);
    }
  }

  lemma {:induction false} ResultsAppend(outside: Outside, calls: seq<Call>, call: Call, from: nat)
    ensures Results(outside, calls + [call], from)
         == Results(outside, calls, from)
            + [ToolResult(IdOf(call), outside.invoke(from + |calls|, NameOf(call), ArgumentsOf(call, outside)))]
    ensures Names(calls + [call]) == Names(calls) + [NameOf(call)]
  {
    hide ArgumentsOf, NameOf, IdOf;
    if calls == [] {
      assert [] + [call] == [call] && [call][1..] == [];
    } else {
      ResultsAppend(outside, calls[1..], call, from + 1);
      assert (calls + [call])[1..] == calls[1..] + [call];
    }
  }

  lemma {:induction false} NamesLength(calls: seq<Call>)
    ensures |Names(calls)| == |calls|
  {
    if calls != [] {
      NamesLength(calls[1..]);
    }
  }

  /** One reply together with the results of its calls. */
  lemma RoundFacts(outside: Outside, reply: Reply, from: nat)
    ensures var group := [Assistant(reply)] + Results(outside, reply.calls, from);
            WellFormed(group) && CalledNames(group) == Names(reply.calls)
  {
    hide Answers, Names, Results;
    var results := Results(outside, reply.calls, from);
    var group := [Assistant(reply)] + results;
    ResultsAnswer(outside, reply.calls, from);
    AnswersSize(reply.calls, results);
    assert group[1..] == results && group[1..1 + |reply.calls|] == results && group[1 + |reply.calls|..] == [];
  }

  lemma AnswersSize(calls: seq<Call>, results: seq<Message>)
    requires Answers(calls, results)
    ensures |results| == |calls|
  {
  }

  /** Whatever was replied, the exchange is well formed, and its names are those of all calls in order. */
  lemma {:induction false} ExchangeFacts(outside: Outside, replies: seq<Reply>)
    ensures WellFormed(Exchange(outside, replies))
    ensures CalledNames(Exchange(outside, replies)) == AllNames(replies)
  {
    hide WellFormed, CalledNames, Results, Names;
    if replies == [] {
      NothingCalled(outside, 0);
    } else {
      var before := Exchange(outside, replies[..|replies| - 1]);
      var last := replies[|replies| - 1];
      ExchangeFacts(outside, replies[..|replies| - 1]);
      RoundFacts(outside, last, |CalledNames(before)|);
      WellFormedConcat(before, [Assistant(last)] + Results(outside, last.calls, |CalledNames(before)|));
      CalledNamesConcat(before, [Assistant(last)] + Results(outside, last.calls, |CalledNames(before)|));
    }
  }

  function AllNames(replies: seq<Reply>): seq<string> {
    if replies == [] then [] else AllNames(replies[..|replies| - 1]) + Names(replies[|replies| - 1].calls)
  }

  lemma NothingCalled(outside: Outside, from: nat)
    ensures Results(outside, [], from) == [] && Names([]) == [] && AllNames([]) == []
    ensures WellFormed([]) && CalledNames([]) == [] && Exchange(outside, []) == []
  {
  }

  /** One more round. */
  lemma ExchangeAppend(outside: Outside, replies: seq<Reply>, reply: Reply)
    ensures Exchange(outside, replies + [reply])
         == Exchange(outside, replies) + ([Assistant(reply)] + Results(outside, reply.calls, |AllNames(replies)|))
    ensures AllNames(replies + [reply]) == AllNames(replies) + Names(reply.calls)
  {
    hide Results, Names;
    assert (replies + [reply])[..|replies|] == replies;
    ExchangeFacts(outside, replies);
  }

  /** The transcripts handed to the model, one after each of these replies. */
  function Sent(outside: Outside, messages: seq<Message>, replies: seq<Reply>): seq<seq<Message>> {
    if replies == [] then []
    else Sent(outside, messages, replies[..|replies| - 1]) + [messages + Exchange(outside, replies)]
  }

  /** What the model says next; None when that completion raises. */
  function NextReply(outside: Outside, messages: seq<Message>, first: Reply, replies: seq<Reply>): Option<Reply> {
    if replies == [] then Some(first) else outside.complete(|replies| - 1, messages + Exchange(outside, replies))
  }

  /** Every reply is what the model said to the transcript before it, and called some tool. */
  predicate Follows(outside: Outside, messages: seq<Message>, first: Reply, replies: seq<Reply>) {
    replies == []
    || (var before := replies[..|replies| - 1];
        var last := replies[|replies| - 1];
        && Follows(outside, messages, first, before)
        && last.calls != [] && NextReply(outside, messages, first, before) == Some(last))
  }

  lemma FollowsAppend(outside: Outside, messages: seq<Message>, first: Reply, replies: seq<Reply>, reply: Reply)
    ensures Sent(outside, messages, replies + [reply])
         == Sent(outside, messages, replies) + [messages + Exchange(outside, replies + [reply])]
    ensures Follows(outside, messages, first, replies + [reply]) <==>
              Follows(outside, messages, first, replies) && reply.calls != []
              && NextReply(outside, messages, first, replies) == Some(reply)
  {
    hide Exchange, NextReply;
    assert (replies + [reply])[..|replies|] == replies;
  }

  lemma NothingSent(outside: Outside, messages: seq<Message>, first: Reply)
    ensures Sent(outside, messages, []) == [] && Follows(outside, messages, first, [])
  {
  }

  /** Every transcript the model gets to see is well formed if the one passed in was. */
  lemma {:induction false} SentWellFormed(outside: Outside, messages: seq<Message>, replies: seq<Reply>)
    requires WellFormed(messages)
    ensures WellFormed(messages + Exchange(outside, replies))
    ensures |Sent(outside, messages, replies)| == |replies|
    ensures forall k :: 0 <= k < |replies| ==> WellFormed(Sent(outside, messages, replies)[k])
  {
    hide Exchange, WellFormed;
    ExchangeFacts(outside, replies);
    WellFormedConcat(messages, Exchange(outside, replies));
    if replies != [] {
      SentWellFormed(outside, messages, replies[..|replies| - 1]);
    }
  }

  // ---------------------------------------------------------------- the loop

  /** The message list the caller passes in and the loop extends, and the transcripts sent so far. */
  class Conversation {
    var messages: seq<Message>
    ghost var sent: seq<seq<Message>>

    constructor (prompt: string)
      ensures messages == [Prompt(prompt)] && sent == []
    {
      messages := [Prompt(prompt)];
      sent := [];
    }

    method Complete(outside: Outside, n: nat) returns (reply: Option<Reply>)
      modifies this`sent
      ensures reply == outside.complete(n, messages) && sent == old(sent) + [messages]
    {
      sent := sent + [messages];
      reply := outside.complete(n, messages);
    }

    /** Invokes all tools a reply calls and appends the results. */
    method AnswerCalls(outside: Outside, reply: Reply, toolsUsed: seq<string>) returns (toolsUsed': seq<string>)
      modifies this`messages
      ensures messages == old(messages) + ([Assistant(reply)] + Results(outside, reply.calls, |toolsUsed|))
      ensures toolsUsed' == toolsUsed + Names(reply.calls)
    {
      hide Results, Names, ArgumentsOf, NameOf, IdOf;
      NothingCalled(outside, |toolsUsed|);
      messages := messages + [Assistant(reply)];
      toolsUsed' := toolsUsed;
      for k := 0 to |reply.calls|
        invariant messages == old(messages) + ([Assistant(reply)] + Results(outside, reply.calls[..k], |toolsUsed|))
        invariant toolsUsed' == toolsUsed + Names(reply.calls[..k])
      {
        var call := reply.calls[k];
        ResultsAppend(outside, reply.calls[..k], call, |toolsUsed|);
        NamesLength(reply.calls[..k]);
        assert reply.calls[..k + 1] == reply.calls[..k] + [call];
        var result := outside.invoke(|toolsUsed'|, NameOf(call), ArgumentsOf(call, outside));
        toolsUsed' := toolsUsed' + [NameOf(call)];
        messages := messages + [ToolResult(IdOf(call), result)];
      }
      assert reply.calls[..|reply.calls|] == reply.calls;
    }

    /** The loop. The messages it appends are the exchange of the replies that called tools, and nothing
        else; each transcript sent is the list as far as it had grown. At most three further completions
        are made, and fewer only when a reply calls no tool or a completion raises. */
    method RunToolCallingLoop(outside: Outside, first: Reply)
      returns (text: Option<string>, toolsUsed: seq<string>, raised: bool, ghost replies: seq<Reply>)
      modifies this
      ensures messages == old(messages) + Exchange(outside, replies)
      ensures sent == old(sent) + Sent(outside, old(messages), replies)
      ensures toolsUsed == CalledNames(Exchange(outside, replies)) == AllNames(replies)
      ensures |replies| <= 3 && Follows(outside, old(messages), first, replies)
      ensures raised <==> replies != [] && outside.complete(|replies| - 1, messages).None?
      ensures raised ==> text.None?
      ensures !raised ==>
                var last := if replies == [] then first else outside.complete(|replies| - 1, messages).value;
                text == TextOf(last) && (|replies| < 3 ==> last.calls == [])
    {
      hide Exchange, AllNames, CalledNames, Results, Names, TextOf, Follows, Sent;
      var response := first;
      toolsUsed := [];
      replies := [];
      NothingCalled(outside, 0);
      NothingSent(outside, messages, first);
      var round := 0;
      while round < MAX_TOOL_ITERATIONS
        invariant 0 <= round == |replies| <= MAX_TOOL_ITERATIONS
        invariant messages == old(messages) + Exchange(outside, replies)
        invariant sent == old(sent) + Sent(outside, old(messages), replies)
        invariant toolsUsed == AllNames(replies)
        invariant Follows(outside, old(messages), first, replies)
        invariant NextReply(outside, old(messages), first, replies) == Some(response)
      {
        if response.calls == [] {
          break;
        }
        ExchangeAppend(outside, replies, response);
        FollowsAppend(outside, old(messages), first, replies, response);
        replies := replies + [response];
        toolsUsed := AnswerCalls(outside, response, toolsUsed);
        var reply := Complete(outside, round);
        if reply.None? {
          ExchangeFacts(outside, replies);
          return None, toolsUsed, true, replies;
        }
        response := reply.value;
        round := round + 1;
      }
      ExchangeFacts(outside, replies);
      return TextOf(response), toolsUsed, false, replies;
    }
  }
}
