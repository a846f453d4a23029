/** The chat page: the transcript state stepped by a send and its outcome,
    the submit handler, the FAQ search filter and the accordion toggle. */
module ChatPage {
  import opened Wrappers
  import opened Text
  import opened Messages

  const Thinking := "thinking..."
  const ApiErrorPrefix := "API error: "
  const UnexpectedError := "An unexpected error occurred"

  /** Message `i` carries id `base + i`. */
  predicate IdsFrom(ms: seq<Message>, base: int)
  {
    forall i :: 0 <= i < |ms| ==> ms[i].id == base + i
  }

  /** With positional ids no two messages share an id. */
  lemma IdsUnique(ms: seq<Message>, base: int)
    requires IdsFrom(ms, base)
    ensures forall i, j :: 0 <= i < |ms| && 0 <= j < |ms| && ms[i].id == ms[j].id ==> i == j
  {
  }

  /** `ms.map(msg => msg.id === id ? m : msg)`. */
  function ReplaceById(ms: seq<Message>, id: int, m: Message): (r: seq<Message>)
    ensures |r| == |ms|
    ensures forall i :: 0 <= i < |ms| ==> r[i] == (if ms[i].id == id then m else ms[i])
  {
    if ms == [] then []
    else [if ms[0].id == id then m else ms[0]] + ReplaceById(ms[1..], id, m)
  }

  /** `ms.filter(msg => msg.id !== id)`. */
  function RemoveById(ms: seq<Message>, id: int): (r: seq<Message>)
    ensures |r| <= |ms|
  {
    if ms == [] then []
    else if ms[0].id == id then RemoveById(ms[1..], id)
    else [ms[0]] + RemoveById(ms[1..], id)
  }

  /** The filter drops every message with the id and keeps every other one
      as often as it occurs. */
  lemma {:induction false} RemoveKeepsOthers(ms: seq<Message>, id: int)
    ensures forall m :: multiset(RemoveById(ms, id))[m] == if m.id == id then 0 else multiset(ms)[m]
  {
    if ms != [] {
      RemoveKeepsOthers(ms[1..], id);
      assert ms == [ms[0]] + ms[1..];
      assert multiset(ms) == multiset{ms[0]} + multiset(ms[1..]);
    }
  }

  /** With positional ids, replacing by id rewrites exactly position `k`. */
  lemma ReplaceAtPosition(ms: seq<Message>, base: int, k: int, m: Message)
    requires IdsFrom(ms, base) && 0 <= k < |ms|
    ensures ReplaceById(ms, base + k, m) == ms[..k] + [m] + ms[k + 1..]
  {
    var r := ReplaceById(ms, base + k, m);
    forall i | 0 <= i < |ms|
      ensures r[i] == (ms[..k] + [m] + ms[k + 1..])[i]
    {
      if i < k {
        assert (ms[..k] + [m] + ms[k + 1..])[i] == ms[i];
      } else if i > k {
        assert (ms[..k] + [m] + ms[k + 1..])[i] == ms[k + 1..][i - k - 1];
      }
    }
  }

  /** Removing an id that no message carries changes nothing. */
  lemma {:induction false} RemoveAbsent(ms: seq<Message>, id: int)
    requires forall i :: 0 <= i < |ms| ==> ms[i].id != id
    ensures RemoveById(ms, id) == ms
  {
    if ms != [] {
      RemoveAbsent(ms[1..], id);
      assert ms == [ms[0]] + ms[1..];
    }
  }

  /** Dropping position `k > 0` is keeping the head and dropping `k - 1` of the tail. */
  lemma SkipAround(ms: seq<Message>, k: int)
    requires 0 < k < |ms|
    ensures ms[..k] + ms[k + 1..] == [ms[0]] + (ms[1..][..k - 1] + ms[1..][k..])
  {
  }

  /** With positional ids, removing by id drops exactly position `k` and keeps
      the order of the rest. */
  lemma {:induction false} RemoveAtPosition(ms: seq<Message>, base: int, k: int)
    requires IdsFrom(ms, base) && 0 <= k < |ms|
    ensures RemoveById(ms, base + k) == ms[..k] + ms[k + 1..]
  {
    if k == 0 {
      RemoveAbsent(ms[1..], base);
    } else {
      assert IdsFrom(ms[1..], base + 1);
      RemoveAtPosition(ms[1..], base + 1, k - 1);
      assert ms[0].id != base + k;
      SkipAround(ms, k);
    }
  }

  /** Replacing the last message of a transcript with positional ids keeps
      the ids positional. */
  lemma ReplaceLast(ms: seq<Message>, m: Message)
    requires IdsFrom(ms, 1) && ms != [] && m.id == |ms|
    ensures ReplaceById(ms, |ms|, m) == ms[..|ms| - 1] + [m]
    ensures IdsFrom(ms[..|ms| - 1] + [m], 1)
  {
    ReplaceAtPosition(ms, 1, |ms| - 1, m);
    assert ms[|ms|..] == [];
  }

  /** Removing the last message of a transcript with positional ids keeps
      the ids positional. */
  lemma RemoveLast(ms: seq<Message>)
    requires IdsFrom(ms, 1) && ms != []
    ensures RemoveById(ms, |ms|) == ms[..|ms| - 1]
    ensures IdsFrom(ms[..|ms| - 1], 1)
  {
    RemoveAtPosition(ms, 1, |ms| - 1);
    assert ms[|ms|..] == [];
  }

  /** The user's message of a send from transcript `ms`. */
  function UserMessage(ms: seq<Message>, text: string): Message
  {
    Message(|ms| + 1, Trim(text), User)
  }

  /** The bot placeholder of a send from transcript `ms`. */
  function Placeholder(ms: seq<Message>): Message
  {
    Message(|ms| + 2, Thinking, Bot)
  }

  /** Appending a send's two messages keeps the ids positional. */
  lemma SendKeepsIds(ms: seq<Message>, text: string)
    requires IdsFrom(ms, 1)
    ensures IdsFrom(ms + [UserMessage(ms, text), Placeholder(ms)], 1)
  {
  }

  /** How the awaited request ended. */
  datatype Outcome =
    | Replied(result: string)       // `response.ok`, `data.result`
    | ApiNotOk(statusText: string)  // `!response.ok`
    | Threw(message: Option<string>) // fetch or body parse threw; `Some` for an Error

  /** The state of the chat widget that a send steps through. `pendingId` is
      the placeholder id the in-flight send will replace or remove. */
  class ChatWidget {
    var messages: seq<Message>
    var isLoading: bool
    var isGenerating: bool
    var error: Option<string>
    var inputValue: string
    var pendingId: int

    /** Ids are positions plus one; while a send is in flight the transcript
        ends with its user message and its placeholder. */
    ghost predicate Valid()
      reads this
    {
      && IdsFrom(messages, 1)
      && isGenerating == isLoading
      && (isLoading ==>
            && |messages| >= 2
            && pendingId == |messages|
            && messages[|messages| - 1] == Message(pendingId, Thinking, Bot)
            && messages[|messages| - 2].sender == User)
    }

    constructor ()
      ensures Valid()
      ensures messages == [] && !isLoading && !isGenerating && error == None && inputValue == ""
    {
      messages := [];
      isLoading := false;
      isGenerating := false;
      error := None;
      inputValue := "";
      pendingId := 0;
    }

    /** `handleSendMessage` up to the awaited fetch. `request` is the
        `messages` array of the posted body, `None` when the guard returns. */
    method Send(text: string) returns (request: Option<seq<Message>>)
      requires Valid()
      modifies this
      ensures Valid()
      ensures request.None? <==> IsBlank(text) || old(isLoading)
      ensures request.None? ==> unchanged(this)
      ensures request.Some? ==>
                && messages == old(messages) + [UserMessage(old(messages), text), Placeholder(old(messages))]
                && request.value == old(messages) + [UserMessage(old(messages), text)]
                && isLoading && isGenerating && error == None
                && pendingId == Placeholder(old(messages)).id
                && inputValue == old(inputValue)
    {
      if Trim(text) == [] || isLoading {
        return None;
      }
      isLoading := true;
      isGenerating := true;
      var userMessage := Message(|messages| + 1, Trim(text), User);
      var before := messages;
      messages := messages + [userMessage];
      var thinkingMessage := Message(|before| + 2, Thinking, Bot);
      messages := messages + [thinkingMessage];
      error := None;
      pendingId := thinkingMessage.id;
      request := Some(before + [userMessage]);
      assert messages == before + [userMessage, thinkingMessage];
      SendKeepsIds(before, text);
    }

    /** The rest of `handleSendMessage`: the reply replaces the placeholder,
        a failure removes it and records its message, and the flags reset. */
    method Receive(outcome: Outcome)
      requires Valid() && isLoading
      modifies this
      ensures Valid() && !isLoading && !isGenerating
      ensures outcome.Replied? ==>
                && messages == ReplaceById(old(messages), old(pendingId), Message(old(pendingId), outcome.result, Bot))
                && messages == old(messages)[..|old(messages)| - 1] + [Message(old(pendingId), outcome.result, Bot)]
                && error == old(error)
      ensures !outcome.Replied? ==>
                && messages == RemoveById(old(messages), old(pendingId))
                && messages == old(messages)[..|old(messages)| - 1]
      ensures outcome.ApiNotOk? ==> error == Some(ApiErrorPrefix + outcome.statusText)
      ensures outcome.Threw? && outcome.message.Some? ==> error == Some(outcome.message.value)
      ensures outcome.Threw? && outcome.message.None? ==> error == Some(UnexpectedError)
      ensures inputValue == old(inputValue)
    {
      match outcome {
        case Replied(result) =>
          var botMessage := Message(pendingId, result, Bot);
          ReplaceLast(messages, botMessage);
          messages := ReplaceById(messages, pendingId, botMessage);
        case ApiNotOk(statusText) =>
          error := Some(ApiErrorPrefix + statusText);
          RemoveLast(messages);
          messages := RemoveById(messages, pendingId);
        case Threw(message) =>
          error := Some(if message.Some? then message.value else UnexpectedError);
          RemoveLast(messages);
          messages := RemoveById(messages, pendingId);
      }
      isLoading := false;
      isGenerating := false;
    }

    /** `onSubmit`: send the input box's text, then empty the box whatever
        the send did. */
    method Submit() returns (request: Option<seq<Message>>)
      requires Valid()
      modifies this
      ensures Valid() && inputValue == ""
      ensures request.None? <==> IsBlank(old(inputValue)) || old(isLoading)
      ensures request.None? ==>
                messages == old(messages) && isLoading == old(isLoading) && error == old(error)
      ensures request.Some? ==>
                && messages == old(messages) + [UserMessage(old(messages), old(inputValue)), Placeholder(old(messages))]
                && request.value == old(messages) + [UserMessage(old(messages), old(inputValue))]
                && isLoading && error == None
    {
      request := Send(inputValue);
      inputValue := "";
    }
  }

  /** One entry of the help centre's question list. */
  datatype Faq = Faq(question: string, answer: string)

  /** The search test: the lowercased query occurs in the lowercased question or answer. */
  predicate Matches(faq: Faq, query: string)
  {
    Contains(Lower(faq.question), Lower(query)) || Contains(Lower(faq.answer), Lower(query))
  }

  /** `faqQuestions.filter(...)` on the search query. */
  function FilterFaqs(faqs: seq<Faq>, query: string): (r: seq<Faq>)
    ensures |r| <= |faqs|
  {
    if faqs == [] then []
    else
      var rest := FilterFaqs(faqs[1..], query);
      if Matches(faqs[0], query) then [faqs[0]] + rest else rest
  }

  /** The entries `FilterFaqs` keeps from a one-entry list. */
  function Kept(f: Faq, query: string): seq<Faq>
  {
    if Matches(f, query) then [f] else []
  }

  lemma FilterCons(f: Faq, s: seq<Faq>, query: string)
    ensures FilterFaqs([f] + s, query) == Kept(f, query) + FilterFaqs(s, query)
  {
    assert ([f] + s)[0] == f && ([f] + s)[1..] == s;
  }

  /** The filter works entry by entry, so it keeps the original order. */
  lemma {:induction false} FilterAppend(a: seq<Faq>, b: seq<Faq>, query: string)
    ensures FilterFaqs(a + b, query) == FilterFaqs(a, query) + FilterFaqs(b, query)
  {
    if a == [] {
      assert a + b == b;
    } else {
      var head := Kept(a[0], query);
      assert FilterFaqs(a + b, query) == head + FilterFaqs(a[1..] + b, query) by {
        assert a + b == [a[0]] + (a[1..] + b);
        FilterCons(a[0], a[1..] + b, query);
      }
      assert FilterFaqs(a, query) == head + FilterFaqs(a[1..], query) by {
        assert a == [a[0]] + a[1..];
        FilterCons(a[0], a[1..], query);
      }
      FilterAppend(a[1..], b, query);
    }
  }

  /** The filter keeps every matching entry as often as it occurs and drops
      every other one. */
  lemma {:induction false} FilterKeepsMatching(faqs: seq<Faq>, query: string)
    ensures forall f :: multiset(FilterFaqs(faqs, query))[f] == if Matches(f, query) then multiset(faqs)[f] else 0
  {
    if faqs != [] {
      FilterKeepsMatching(faqs[1..], query);
      assert faqs == [faqs[0]] + faqs[1..];
      assert multiset(faqs) == multiset{faqs[0]} + multiset(faqs[1..]);
    }
  }

  /** Every string contains the empty query. */
  lemma ContainsEmpty(s: string)
    ensures Contains(s, "")
  {
    assert OccursAt(s, "", 0);
  }

  /** An empty search box lists every entry. */
  lemma {:induction false} EmptyQueryKeepsAll(faqs: seq<Faq>)
    ensures FilterFaqs(faqs, "") == faqs
  {
    if faqs != [] {
      ContainsEmpty(Lower(faqs[0].question));
      assert Lower("") == "";
      EmptyQueryKeepsAll(faqs[1..]);
      assert faqs == [faqs[0]] + faqs[1..];
    }
  }

  /** Letter case in the search box plays no part in the result. */
  lemma {:induction false} QueryCaseIgnored(faqs: seq<Faq>, query: string)
    ensures FilterFaqs(faqs, Lower(query)) == FilterFaqs(faqs, query)
  {
    if faqs != [] {
      LowerIdempotent(query);
      QueryCaseIgnored(faqs[1..], query);
    }
  }

  /** The accordion click on entry `index`. */
  function Toggle(expanded: Option<nat>, index: nat): (r: Option<nat>)
    ensures r == None <==> expanded == Some(index)
    ensures r.Some? ==> r.value == index
  {
    if expanded == Some(index) then None else Some(index)
  }
}
