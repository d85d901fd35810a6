# Super Pharmacist Bot: a Dafny model of its decision logic

`bot.py` is a Telegram bot. A user types a drug name. The bot looks the name up
in the DailyMed registry, cleans the registry's title into a display name, and
asks a Groq chat model for a short educational summary. If the first model
fails, it tries the next one. The answer goes back to the user with a
disclaimer. Nearly all of the file is glue around external services. This
project models the four pieces of logic that make decisions:

- **Name cleaning** (`name_cleaning.dfy`, module `NameCleaning`). The chain
  `raw_title.split(" AND ")[0].split("TABLET")[0].split("CAPSULE")[0]
  .split("INJECTION")[0].split("FOR ")[0].strip().title()` is written as pure
  functions. `Before` is `split(d)[0]`, and `LStrip`, `RStrip` and `Strip` are
  Python's `lstrip`, `rstrip` and `strip`. `TitleFrom` and `Title` follow the
  loop of `str.title()`. `CleanName` composes them. Whitespace is what
  `str.isspace()` accepts among ASCII characters (tab through carriage return,
  0x1C-0x1F and space). The cased characters are the ASCII letters.
- **Model fallback** (`fallback.dfy`, module `Fallback`).
  `groq_chat_with_fallback` is a method with a loop over the model list. Each
  model's call is an abstract `Outcome`: `Ok(content)` or `Fail`. The content
  is optional, because the SDK may return a null message content. `Fail` stands
  for any exception. The method returns the answer and the list of models it
  called.
- **Lookup decision** (`lookup.dfy`, module `Lookup`). `search_drug` becomes a
  function of an abstract `Response`: a transport error, or a status code with
  a decoded body.
- **Handlers** (`handlers.dfy`, module `Handlers`). `start` and `reply` are
  methods. They append each `reply_text` to the `sent` log of a `Chat` object.
  `Replies` and `AiCalls` say which messages `reply` sends and which models it
  calls.

Notes on the code:
- The first separator is `" AND "`, with a space on each side. A bare `AND`
  inside a word does not cut the title.
- `search_drug` returns the whole first record, not its title. `reply` reads
  `title` from that record, and uses the stripped message text when the record
  has no `title` key.
- `if not drug_data` treats an empty record `{}` as "not found", the same as
  `None`. The model keeps this: `Lookup.Found` requires a non-empty record.
- `if not ai_answer` treats a `None` answer and an empty answer alike. Both
  give the "AI unavailable" reply.

## Model

| member | source | states |
|---|---|---|
| NameCleaning.BeforeSpec | bot.py:107-111 | `split(d)[0]` is a prefix of the string, and `d` starts nowhere inside it. It ends exactly where the first `d` starts, or it is the whole string when `d` does not occur. |
| NameCleaning.BeforePrefix | bot.py:107-111 | `split(d)[0]` is a prefix of the input. |
| NameCleaning.BeforeNoEarlier | bot.py:107-111 | No occurrence of `d` starts before the end of `split(d)[0]`. |
| NameCleaning.BeforeStops | bot.py:107-111 | If `d` occurs, `split(d)[0]` ends where its first occurrence starts. If not, the string comes back whole. |
| NameCleaning.BeforeFirst | bot.py:107-111 | When the first `d` starts at index `k`, `split(d)[0]` is the first `k` characters. |
| NameCleaning.TextBeforeUnique | bot.py:107-111 | Exactly one string satisfies that description, so `Before` is the text before the first `d`. |
| NameCleaning.BeforeLacks | bot.py:107-111 | `d` does not occur in `split(d)[0]`. |
| NameCleaning.BeforeAbsent | bot.py:107-111 | A string that does not contain `d` is its own `split(d)[0]`. |
| NameCleaning.PrefixLacks | bot.py:107-111 | A prefix of a string that lacks `d` also lacks it, so a later split never brings back an earlier separator. |
| NameCleaning.SplitStep | bot.py:107-111 | Each split in the chain keeps a prefix, removes its own separator and keeps the earlier separators absent. |
| NameCleaning.SplitChainSpec | bot.py:105-111 | The five splits leave a prefix of `raw_title` that contains none of `" AND "`, `"TABLET"`, `"CAPSULE"`, `"INJECTION"` and `"FOR "`. |
| NameCleaning.LStripSpec | bot.py:112 | `lstrip()` drops only whitespace from the front and leaves a suffix that is empty or starts with a non-space character. |
| NameCleaning.RStripSpec | bot.py:112 | `rstrip()` drops only whitespace from the end and leaves a prefix that is empty or ends with a non-space character. |
| NameCleaning.StripSpec | bot.py:112 | `strip()` returns the contiguous part of the input between its leading and trailing whitespace. The result has no whitespace at either end. |
| NameCleaning.StripStripped | bot.py:112 | `strip()` leaves a string without surrounding whitespace unchanged. |
| NameCleaning.TitleFrom | bot.py:113 | The `str.title()` loop keeps the length. It lower-cases each character that follows a cased character and upper-cases every other character. |
| NameCleaning.TitleSpec | bot.py:113 | In `title()`, each letter stays the same letter and only its case can change. Every other character is unchanged. A letter is upper-case exactly when the character before it is not a letter, and lower-case exactly when it is. |
| NameCleaning.TitleAt | bot.py:113 | The same rule at a single index: the same letter up to case, cased by the character before it, and a non-letter unchanged. |
| NameCleaning.TitleIdempotent | bot.py:113 | Title-casing twice gives the same result as title-casing once. |
| NameCleaning.TitleNoInnerCapital | bot.py:113 | In a title-cased string, a letter that follows another letter is lower-case. |
| NameCleaning.TitleKeepsEnds | bot.py:112-113 | Title-casing a stripped string leaves no whitespace at either end. |
| NameCleaning.CleanNameSpec | bot.py:105-114 | The cleaned name has no surrounding whitespace and the same length as the stripped split-chain text. Each of its characters equals the character at the same position of that text up to case: a letter keeps its identity and is re-cased by the `title()` rule. A non-letter is unchanged. |
| NameCleaning.TitleLacks | bot.py:107-113 | A title-cased string never contains a separator that has an upper-case letter right after another letter. |
| NameCleaning.TitleLacksSeparators | bot.py:107-113 | A title-cased string contains none of the five separators. |
| NameCleaning.SplitChainOfTitle | bot.py:105-113 | A title-cased string passes through the split chain unchanged. |
| NameCleaning.CleanNameIdempotent | bot.py:105-114 | Cleaning an already cleaned name returns it unchanged. |
| NameCleaning.NoUpperLacks | bot.py:107-111 | A string without upper-case letters contains no separator that has one. |
| NameCleaning.SplitChainOfLowerCase | bot.py:105-111 | A name typed in lower case passes through the split chain unchanged. |
| NameCleaning.CleanNameOfLowerCase | bot.py:105-114 | Cleaning a stripped lower-case name only title-cases it. |
| NameCleaning.TitleMetformin | bot.py:113 | `"metformin".title()` is `"Metformin"`. |
| NameCleaning.CleanNameMetformin | bot.py:105-114 | The text `metformin` is cleaned to the name `Metformin`. |
| NameCleaning.RegistryTitleLacksAnd | bot.py:107 | `METFORMIN HYDROCHLORIDE TABLET, FILM COATED` contains no `" AND "`. |
| NameCleaning.RegistryTitleCut | bot.py:108 | Splitting that title on `TABLET` keeps `METFORMIN HYDROCHLORIDE `, with its trailing space. |
| NameCleaning.RegistryNameLacksRest | bot.py:109-111 | The text kept contains none of `CAPSULE`, `INJECTION` and `FOR `. |
| NameCleaning.SplitChainRegistryTitle | bot.py:105-111 | The whole split chain maps that title to `METFORMIN HYDROCHLORIDE `. |
| NameCleaning.StripRegistryName | bot.py:112 | `strip()` removes the trailing space. |
| NameCleaning.TitleRegistryName | bot.py:113 | `"METFORMIN HYDROCHLORIDE".title()` is `Metformin Hydrochloride`. |
| NameCleaning.CleanNameRegistryTitle | bot.py:105-114 | The registry title `METFORMIN HYDROCHLORIDE TABLET, FILM COATED` is displayed as `Metformin Hydrochloride`. |
| Fallback.FirstSuccess | bot.py:29-40 | Gives the index of the first model whose call succeeds: every earlier call failed. Gives `None` exactly when every call fails. |
| Fallback.FirstSuccessAt | bot.py:29-40 | A success that follows only failures is the first success. |
| Fallback.ChatWithFallback | bot.py:28-44 | If model `k` is the first to succeed, it returns that call's content unchanged. It then has called exactly models `0..k`, in list order, and no later model. If every call fails, it has called each model once, in order, and returns `None`. |
| Fallback.SecondModelAnswers | bot.py:23-44 | With the two configured models, if the first fails and the second answers, both are called and the second model's content is returned. |
| Lookup.SearchDrug | bot.py:59-69 | Returns a record exactly when the call did not raise, the status is 200, the body decodes and `data` is present and non-empty. That record is `data[0]`, unmodified. Every other case gives `None`. |
| Handlers.Chat.ReplyText | bot.py:93 | Sending a reply appends exactly that text to the chat's log. |
| Handlers.Start | bot.py:75-84 | `/start` sends exactly one reply: the fixed greeting. |
| Handlers.Reply | bot.py:90-153 | `reply` appends exactly the sequence `Replies` to the chat's log and calls exactly the models in `AiCalls`. |
| Handlers.RepliesDistinct | bot.py:97-153 | The not-found reply, the unavailable reply and any formatted answer differ from one another. |
| Handlers.TwoReplies | bot.py:93-153 | Every text message gets exactly two replies. The first is the "searching" acknowledgement. |
| Handlers.NotFoundPath | bot.py:95-101 | The second reply is the not-found text exactly when the lookup result is falsy. In that case no model is called. |
| Handlers.UnavailablePath | bot.py:140-147 | The second reply is the unavailable text exactly when a record was found and the fallback returned `None` or `""`. |
| Handlers.AnsweredPath | bot.py:103-153 | When a record was found and a model answered with non-empty text, the second reply is `"💊 Drug name:\n" + name + "\n\n" + answer + "\n\n⚠️ Educational information only."`. The name is the cleaned `title`, or the cleaned stripped message text when the record has no `title`. The models called are the fallback's attempts. |
| Handlers.MetforminReply | bot.py:91-153 | For the message `metformin`, a record without a title and a non-empty answer, the reply is headed by `Metformin`. |
| Handlers.RegistryTitleReply | bot.py:103-153 | For a record titled `METFORMIN HYDROCHLORIDE TABLET, FILM COATED` and a non-empty answer, the reply is headed by `Metformin Hydrochloride`, whatever the user typed. |

## Left out

- Telegram plumbing: the application builder, handler registration, polling, `async`/`await` and the process start-up (bot.py:159-165). A failure while sending a reply is also not modelled.
- The Groq client and its parameters (bot.py:15-18, 31-39): the API key, the system message, the temperature and `max_tokens`. Each model's call is an abstract `Outcome`, so the model does not see why a call fails.
- Handlers.Reply: the prompt template (bot.py:116-138) is not built. It is a fixed literal with one interpolation, and the outcomes given for the models already stand for the answers to it.
- The HTTP request, its URL, parameters and timeout, and JSON decoding (bot.py:51-62). The response is an abstract `Response`.
- Lookup.SearchDrug: a `data` value that is neither missing nor a list is not modelled. Neither is a record that is not a JSON object, nor a record whose `title` is not a string. In the program these would either raise inside `search_drug`, which is caught, or raise later in `reply`, which is not.
- `print` logging of failed models (bot.py:42, bot.py:164).
- NameCleaning.IsSpace: whitespace and letter case are Python's definitions restricted to ASCII. Non-ASCII characters are treated as uncased non-whitespace. Python would also strip Unicode spaces such as U+00A0 and would title-case non-ASCII letters.
- Fallback.ChatWithFallback: the caller supplies one outcome per model (`|outcomes| == |models|`). A call is modelled as a fixed outcome for that position in the list, not as a live network request.
