/**
  `groq_chat_with_fallback` (bot.py:28-44): the chat models are tried one
  after another, and the first call that does not raise supplies the
  answer.

  The network call to Groq is not modelled. Each model's call is given as
  an abstract `Outcome`: the completion's first message content, or a
  failure that stands for any exception raised while making the call or
  reading its result.
 */
module Fallback {
  import opened Wrappers

  /** The result of one `client.chat.completions.create` call together with
      `completion.choices[0].message.content`. The content may be null
      (`None`) even when the call succeeds. */
  datatype Outcome = Ok(content: Option<string>) | Fail

  /** The ordered fallback list of bot.py:23-26. */
  const Models: seq<string> := ["llama-3.1-8b-instant", "llama-3-8b-instruct"]

  /** The position of the first successful call, if there is one. */
  function FirstSuccess(outcomes: seq<Outcome>): (k: Option<nat>)
    ensures k.Some? ==>
      k.value < |outcomes| && outcomes[k.value].Ok? &&
      forall j :: 0 <= j < k.value ==> outcomes[j].Fail?
    ensures k.None? ==> forall j :: 0 <= j < |outcomes| ==> outcomes[j].Fail?
  {
    if outcomes == [] then None
    else if outcomes[0].Ok? then Some(0)
    else match FirstSuccess(outcomes[1..])
      case None => None
      case Some(k) => Some(k + 1)
  }

  /** What `groq_chat_with_fallback` returns: the content of the first
      successful call, or `None` when every call fails. */
  function Answer(outcomes: seq<Outcome>): (answer: Option<string>) {
    match FirstSuccess(outcomes)
    case Some(k) => outcomes[k].content
    case None => None
  }

  /** The models actually called, in the order they are called. */
  function Attempts(models: seq<string>, outcomes: seq<Outcome>): (tried: seq<string>)
    requires |outcomes| == |models|
  {
    match FirstSuccess(outcomes)
    case Some(k) => models[..k + 1]
    case None => models
  }

  /** The loop of bot.py:29-44. `outcomes[i]` is what calling `models[i]`
      yields; `tried` records the models called, in order.
      If model `k` is the first to succeed, its content is returned
      unchanged and exactly the models `0..k` were called; if every call
      fails, each model was called exactly once, in list order, and the
      result is `None`. */
  method ChatWithFallback(models: seq<string>, outcomes: seq<Outcome>)
      returns (answer: Option<string>, tried: seq<string>)
    requires |outcomes| == |models|
    ensures match FirstSuccess(outcomes)
      case Some(k) => answer == outcomes[k].content && tried == models[..k + 1]
      case None => answer == None && tried == models
  {
    tried := [];
    var i := 0;
    while i < |models|
      invariant 0 <= i <= |models|
      invariant tried == models[..i]
      invariant forall j :: 0 <= j < i ==> outcomes[j].Fail?
    {
      tried := tried + [models[i]];
      match outcomes[i]
      case Ok(content) =>
        assert FirstSuccess(outcomes) == Some(i) by {
          FirstSuccessAt(outcomes, i);
        }
        return content, tried;
      case Fail =>
      i := i + 1;
    }
    assert models[..i] == models;
    return None, tried;
  }

  /** A call that succeeds after calls that all failed is the first
      success. */
  lemma {:induction false} FirstSuccessAt(outcomes: seq<Outcome>, k: nat)
    requires k < |outcomes| && outcomes[k].Ok?
    requires forall j :: 0 <= j < k ==> outcomes[j].Fail?
    ensures FirstSuccess(outcomes) == Some(k)
  {
    if k > 0 {
      FirstSuccessAt(outcomes[1..], k - 1);
    }
  }

  /** With bot.py's two models: when the first model fails and the second
      answers, both are called and the second model's content is returned. */
  lemma SecondModelAnswers(outcomes: seq<Outcome>, c: string)
    requires |outcomes| == |Models|
    requires outcomes[0] == Fail && outcomes[1] == Ok(Some(c))
    ensures Answer(outcomes) == Some(c)
    ensures Attempts(Models, outcomes) == Models
  {
    FirstSuccessAt(outcomes, 1);
  }
}
