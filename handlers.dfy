/**
  The two Telegram handlers of bot.py: `start` (bot.py:75-84) and `reply`
  (bot.py:90-153). Sending a message is modelled as appending it to the
  chat's log of outgoing replies. The DailyMed lookup and the Groq calls
  are abstract inputs: the response the registry gives for this message,
  and the outcome each model's call gives for the prompt built from it.
 */
module Handlers {
  import opened Wrappers
  import opened NameCleaning
  import opened Lookup
  import opened Fallback

  // ---------------------------------------------------------------------------
  // The fixed replies
  // ---------------------------------------------------------------------------

  /** The `/start` greeting (bot.py:77-83). */
  const Welcome: string :=
    "👋 أهلاً\n" +
    "💊 Super Pharmacist Bot\n\n" +
    "✍️ اكتب الاسم العلمي للدواء (بالإنجليزي)\n\n" +
    "أمثلة:\n" +
    "metformin\n" +
    "omeprazole\n\n" +
    "⚠️ المعلومات إرشادية فقط."

  /** The acknowledgement sent before the lookup (bot.py:93). */
  const Searching: string := "🔎 جارٍ البحث عن الدواء..."

  /** The reply when the registry has no usable record (bot.py:98-99). */
  const NotFoundText: string :=
    "❌ لم يتم العثور على الدواء.\n" +
    "تأكد من كتابة الاسم العلمي بالإنجليزية."

  /** The reply when no model gives an answer (bot.py:144-145). */
  const UnavailableText: string :=
    "❌ الذكاء الاصطناعي غير متاح حاليًا.\n" +
    "حاول مرة أخرى لاحقًا."

  /** The formatted answer (bot.py:150-152). */
  function AnswerText(name: string, answer: string): (r: string) {
    "💊 Drug name:\n" + name + "\n\n" + answer + "\n\n⚠️ Educational information only."
  }

  // ---------------------------------------------------------------------------
  // The outgoing side of a chat
  // ---------------------------------------------------------------------------

  /** A chat as the handlers see it: the replies sent to it so far. */
  class Chat {
    var sent: seq<string>

    constructor ()
      ensures sent == []
    {
      sent := [];
    }

    /** `update.message.reply_text(text)`. */
    method ReplyText(text: string)
      modifies this
      ensures sent == old(sent) + [text]
    {
      sent := sent + [text];
    }
  }

  // ---------------------------------------------------------------------------
  // What `reply` decides
  // ---------------------------------------------------------------------------

  /** How a text message ends: not found, AI unavailable, or answered with
      the cleaned drug name and the model's answer. */
  datatype Verdict = NotFound | AiUnavailable | Answered(name: string, answer: string)

  /** The decision of bot.py:91-147 for message text `text`, registry
      response `lookup` and per-model outcomes `outcomes`. */
  function Decide(text: string, lookup: Response, outcomes: seq<Outcome>): (v: Verdict)
    requires |outcomes| == |Models|
  {
    var drugData := SearchDrug(lookup);
    if !Found(drugData) then NotFound
    else
      var name := CleanName(TitleOr(drugData.value, Strip(text)));
      match Answer(outcomes)
      case None => AiUnavailable
      case Some(a) => if a == "" then AiUnavailable else Answered(name, a)
  }

  function VerdictText(v: Verdict): (r: string) {
    match v
    case NotFound => NotFoundText
    case AiUnavailable => UnavailableText
    case Answered(name, answer) => AnswerText(name, answer)
  }

  /** The replies `reply` sends for one message, in order. */
  function Replies(text: string, lookup: Response, outcomes: seq<Outcome>): (replies: seq<string>)
    requires |outcomes| == |Models|
  {
    [Searching, VerdictText(Decide(text, lookup, outcomes))]
  }

  /** The models `reply` calls for one message, in order. */
  function AiCalls(text: string, lookup: Response, outcomes: seq<Outcome>): (calls: seq<string>)
    requires |outcomes| == |Models|
  {
    if Found(SearchDrug(lookup)) then Attempts(Models, outcomes) else []
  }

  // ---------------------------------------------------------------------------
  // The handlers
  // ---------------------------------------------------------------------------

  /** `start`: one reply, the greeting. */
  method Start(chat: Chat)
    modifies chat
    ensures chat.sent == old(chat.sent) + [Welcome]
  {
    chat.ReplyText(Welcome);
  }

  /** `reply`: sends the acknowledgement, then exactly one of the not-found
      reply, the unavailable reply or the formatted answer; `tried` is the
      list of models called. */
  method Reply(chat: Chat, text: string, lookup: Response, outcomes: seq<Outcome>)
      returns (tried: seq<string>)
    requires |outcomes| == |Models|
    modifies chat
    ensures chat.sent == old(chat.sent) + Replies(text, lookup, outcomes)
    ensures tried == AiCalls(text, lookup, outcomes)
  {
    ghost var before := chat.sent;
    var drugInput := Strip(text);
    chat.ReplyText(Searching);

    var drugData := SearchDrug(lookup);
    if !Found(drugData) {
      chat.ReplyText(NotFoundText);
      assert Decide(text, lookup, outcomes) == NotFound;
      return [];
    }

    var rawTitle := TitleOr(drugData.value, drugInput);
    var drugName := CleanName(rawTitle);

    var aiAnswer;
    aiAnswer, tried := ChatWithFallback(Models, outcomes);
    assert aiAnswer == Answer(outcomes);

    if aiAnswer.None? || aiAnswer.value == "" {
      chat.ReplyText(UnavailableText);
      assert Decide(text, lookup, outcomes) == AiUnavailable;
      return;
    }

    chat.ReplyText(AnswerText(drugName, aiAnswer.value));
    assert Decide(text, lookup, outcomes) == Answered(drugName, aiAnswer.value);
  }

  // ---------------------------------------------------------------------------
  // Properties of the reply sequence
  // ---------------------------------------------------------------------------

  /** The three second replies are pairwise different, so the second reply
      tells which path was taken. */
  lemma RepliesDistinct(name: string, answer: string)
    ensures NotFoundText != UnavailableText
    ensures AnswerText(name, answer) != NotFoundText
    ensures AnswerText(name, answer) != UnavailableText
  {
    assert NotFoundText[2] != UnavailableText[2];
    assert AnswerText(name, answer)[0] == '💊';
    assert NotFoundText[0] == '❌' && UnavailableText[0] == '❌';
  }

  /** Every text message gets exactly two replies, the first of them the
      acknowledgement. */
  lemma TwoReplies(text: string, lookup: Response, outcomes: seq<Outcome>)
    requires |outcomes| == |Models|
    ensures |Replies(text, lookup, outcomes)| == 2
    ensures Replies(text, lookup, outcomes)[0] == Searching
  {
  }

  /** The second reply is the not-found reply exactly when the lookup gives
      nothing usable, and then no model is called. */
  lemma NotFoundPath(text: string, lookup: Response, outcomes: seq<Outcome>)
    requires |outcomes| == |Models|
    ensures Replies(text, lookup, outcomes)[1] == NotFoundText <==> !Found(SearchDrug(lookup))
    ensures !Found(SearchDrug(lookup)) ==> AiCalls(text, lookup, outcomes) == []
  {
    match Decide(text, lookup, outcomes)
    case Answered(name, answer) => RepliesDistinct(name, answer);
    case _ => RepliesDistinct("", "");
  }

  /** The second reply is the unavailable reply exactly when a record was
      found but the models gave no answer or an empty one. */
  lemma UnavailablePath(text: string, lookup: Response, outcomes: seq<Outcome>)
    requires |outcomes| == |Models|
    ensures Replies(text, lookup, outcomes)[1] == UnavailableText <==>
      Found(SearchDrug(lookup)) && (Answer(outcomes) == None || Answer(outcomes) == Some(""))
  {
    match Decide(text, lookup, outcomes)
    case Answered(name, answer) => RepliesDistinct(name, answer);
    case _ => RepliesDistinct("", "");
  }

  /** When a record was found and a model answered with non-empty text, the
      second reply is that text framed by the cleaned name and the
      disclaimer; the name comes from the record's title, or from the
      stripped message text when the record has no title. */
  lemma AnsweredPath(text: string, lookup: Response, outcomes: seq<Outcome>, answer: string)
    requires |outcomes| == |Models|
    requires Found(SearchDrug(lookup))
    requires Answer(outcomes) == Some(answer) && answer != ""
    ensures var rec := SearchDrug(lookup).value;
      Replies(text, lookup, outcomes)[1] ==
        AnswerText(CleanName(if "title" in rec then rec["title"] else Strip(text)), answer)
    ensures AiCalls(text, lookup, outcomes) == Attempts(Models, outcomes)
  {
  }

  /** The example of a user typing "metformin" when the record found has no
      title: the answer shown is headed by the name "Metformin". */
  lemma MetforminReply(text: string, lookup: Response, outcomes: seq<Outcome>, answer: string)
    requires |outcomes| == |Models|
    requires text == "metformin"
    requires Found(SearchDrug(lookup)) && "title" !in SearchDrug(lookup).value
    requires Answer(outcomes) == Some(answer) && answer != ""
    ensures Replies(text, lookup, outcomes)[1] == AnswerText("Metformin", answer)
  {
    StripStripped(text);
    CleanNameMetformin(text);
  }

  /** A registry record titled "METFORMIN HYDROCHLORIDE TABLET, FILM COATED"
      and a non-empty answer: the answer shown is headed by the name
      "Metformin Hydrochloride", whatever the user typed. */
  lemma RegistryTitleReply(text: string, lookup: Response, outcomes: seq<Outcome>, answer: string)
    requires |outcomes| == |Models|
    requires Found(SearchDrug(lookup))
    requires "title" in SearchDrug(lookup).value
    requires SearchDrug(lookup).value["title"] == "METFORMIN " + "HYDROCHLORIDE " + "TABLET, " + "FILM COATED"
    requires Answer(outcomes) == Some(answer) && answer != ""
    ensures Replies(text, lookup, outcomes)[1] == AnswerText("Metformin " + "Hydrochloride", answer)
  {
    CleanNameRegistryTitle("METFORMIN " + "HYDROCHLORIDE " + "TABLET, " + "FILM COATED");
  }
}
