# Stage-status notifications of a GoCD notification plugin, modelled in Dafny

The plugin receives one stage-status request from the Go server each time a
pipeline stage changes state. `StageStatusRequestExecutor` handles it in two
steps:

- `sendNotification()` reads the plugin settings (`apiUrl`, `apiUser`,
  `goServerUrl`). It returns without doing anything when one of them is null
  or empty. Otherwise it lower-cases the stage state and returns when the
  result does not contain `failed`. For a failed stage it formats a title and
  a link to the stage run. It splices them, with the sender's text, into a
  link-type JSON body and POSTs that body to `apiUrl`. An `IOException` from
  the HTTP client is logged and swallowed.
- `execute()` wraps that call. It answers code 200 with `{"status": "success"}`,
  or `{"status": "failure", "messages": [<exception message>]}` when
  `sendNotification()` threw.

The model is made of pure functions, as the code is straight-line: no loops
and no mutable fields. It is split into these files:

- `Wrappers.dfy`: `Option`, where `None` stands for a Java null.
- `JavaString.dfy`: the `String` operations the executor uses:
  - `toLowerCase`, restricted to ASCII;
  - `contains`, proved equivalent to "occurs at some index";
  - the `%s` rendering of a possibly-null value (`null`);
  - Guava's `isNullOrEmpty`.
- `StageStatusRequestExecutor.dfy`: the executor.
  - The request is a nest of nullable records: pipeline, then stage, then state.
  - `SendNotification` returns the POST it hands to the HTTP client, if any,
    and how the call ended.
  - `Execute` returns the response code and the map that is serialised as the
    response body.
- `StageStatusProperties.dfy`: the properties.
  - What the "failed" test accepts and rejects.
  - A reader for the webhook body: it gives the spliced values back exactly
    when they hold no double quote. The reader follows the body's template,
    not JSON: a value runs up to the next double quote, and a backslash is an
    ordinary character. So a JSON escape such as `a\nb` reads back unchanged,
    and "unreadable" below means "not readable by this template reader". An
    injected `x", "k": "v` makes the body unreadable in that sense.
  - Readers that take the title apart at spaces and the link at slashes.

The network is an input. The request the executor builds is returned as a
`Post` value (endpoint, content type, body). The HTTP client's answer is a
`Transport` parameter:

- `InvalidUrl(message)`, when `new HttpPost(apiUrl)` rejects the endpoint as
  not a URI. It throws before the body is built, so no request is made and
  the exception escapes to `execute()`;
- `Delivered`;
- `IoFailure`, for an `IOException`, which the executor catches;
- `Fault(message)`, for any other exception, which escapes to `execute()`.

A null pipeline, stage or state makes the executor throw a
`NullPointerException`. Its message is a parameter (`nullMessage`) because it
depends on the JVM.

The executor keeps no state between requests. It has no registry of failing
stages, no suppression of duplicate failures and no "recovered" message. A
passing stage is treated like any other state that does not contain
`failed`.

## Model

`SettingsComplete` (line 73's gate), `StateOf` (line 78's null chain),
`JavaString.IsNullOrEmpty`, `JavaString.Show` (the `%s` rendering) and `Text`
(line 92's text) are plain definitions without contracts of their own. What
they mean is stated by the `SendNotification` row (the gate and the null
chain), the `TitleWords` and `MessageUrlSegments` rows (the `%s` rendering)
and the `TextRoundTrip`, `DispatchedBody` and `PostedBodyReadableIff` rows
(the text).

| member | source | states |
|---|---|---|
| `JavaString.ToLowerAscii` | src/main/java/com/example/notification/executors/StageStatusRequestExecutor.java:78 | lower-casing keeps the length, maps each character through ASCII folding, and leaves no upper-case letter |
| `JavaString.ContainsIff` | src/main/java/com/example/notification/executors/StageStatusRequestExecutor.java:78 | `contains(sub)` is true exactly when `sub` occurs at some index of the string |
| `JavaString.Contains` | src/main/java/com/example/notification/executors/StageStatusRequestExecutor.java:78 | a match is only possible when the pattern is no longer than the string (the full characterisation is `ContainsIff`) |
| `StageStatusRequestExecutor.IsFailedState` | src/main/java/com/example/notification/executors/StageStatusRequestExecutor.java:78 | a state that counts as failed has at least six characters (the full characterisation is `FailedStateIff`) |
| `StageStatusProperties.FailedStateIff` | src/main/java/com/example/notification/executors/StageStatusRequestExecutor.java:78 | a state counts as failed exactly when six consecutive characters spell `failed` after lower-casing, in any case and at any position |
| `StageStatusProperties.FailedStateExamples` | src/main/java/com/example/notification/executors/StageStatusRequestExecutor.java:78-80 | `Failed`, `FAILED` and `xfailedy` count as failed |
| `StageStatusProperties.PassedStateNotFailed` | src/main/java/com/example/notification/executors/StageStatusRequestExecutor.java:78-80 | `Passed` and `Building` never count as failed |
| `StageStatusProperties.CancelledStateNotFailed` | src/main/java/com/example/notification/executors/StageStatusRequestExecutor.java:78-80 | `Cancelled` and the empty state never count as failed |
| `StageStatusProperties.NoFailedWithoutF` | src/main/java/com/example/notification/executors/StageStatusRequestExecutor.java:78 | a state with no `f` or `F` never counts as failed |
| `StageStatusProperties.TextRoundTrip` | src/main/java/com/example/notification/executors/StageStatusRequestExecutor.java:82-98 | the `text` value names its sender: removing the fixed ` - Go to fix it please!` gives `apiUser` back, and a text that reads back as a sender is exactly that sender's text |
| `StageStatusRequestExecutor.Title` | src/main/java/com/example/notification/executors/StageStatusRequestExecutor.java:83 | the title starts with `Pipeline ` and ends with the state as sent, not lower-cased (its words are `TitleWords`) |
| `StageStatusRequestExecutor.MessageUrl` | src/main/java/com/example/notification/executors/StageStatusRequestExecutor.java:84 | the link starts with `goServerUrl + "/go/pipelines/"` (its segments are `MessageUrlSegments`) |
| `StageStatusRequestExecutor.Body` | src/main/java/com/example/notification/executors/StageStatusRequestExecutor.java:89-98 | the body starts with the fixed head up to the opening quote of `text`, ends with the closing quote and braces, and its length is that of the fixed pieces plus the three values: nothing is escaped or added |
| `StageStatusRequestExecutor.SendNotification` | src/main/java/com/example/notification/executors/StageStatusRequestExecutor.java:67-106 | a POST is attempted iff all three settings are non-null and non-empty, the state can be reached and it contains `failed`, and `new HttpPost(apiUrl)` accepts the endpoint; the POST goes to `apiUrl` as `application/json`, and its body is the template filled, unescaped, with the sender's text, the title and the link formatted from the request; incomplete settings end normally whatever the request holds; the call throws iff the settings are complete and either a null lies on the path to the state (the null-pointer message), or the state is failed and the endpoint is rejected as a URI or the HTTP client raises a non-IO exception (its message); an `IOException` ends normally |
| `StageStatusProperties.NonFailedStateSendsNothing` | src/main/java/com/example/notification/executors/StageStatusRequestExecutor.java:78-80 | a reachable state without `failed`, such as a passing stage, sends nothing and gives status success: there is no recovery notification |
| `StageStatusProperties.TitleWords` | src/main/java/com/example/notification/executors/StageStatusRequestExecutor.java:83 | for names without spaces, the title's words are `Pipeline`, the pipeline name (`null` if null), `stage`, the stage name, then the words of the state as sent (not lower-cased) |
| `StageStatusProperties.MessageUrlSegments` | src/main/java/com/example/notification/executors/StageStatusRequestExecutor.java:84 | the link starts with `goServerUrl + "/go/pipelines/"`, and for values without slashes the rest is exactly pipeline name, pipeline counter, stage name and stage counter, slash-separated (`null` for a null value) |
| `StageStatusProperties.BodyRoundTrip` | src/main/java/com/example/notification/executors/StageStatusRequestExecutor.java:89-98 | reading back the link-type body yields the spliced text, the title, an empty `picUrl` and the link, whenever none of them holds a double quote |
| `StageStatusProperties.QuoteInTextBreaksBody` | src/main/java/com/example/notification/executors/StageStatusRequestExecutor.java:89-98 | values are spliced without escaping: a double quote in the text that is not followed by a comma makes the body unreadable |
| `StageStatusProperties.BodyNeedsNoQuote` | src/main/java/com/example/notification/executors/StageStatusRequestExecutor.java:89-98 | the template reader accepts a body only when none of the text, title and link holds a double quote |
| `StageStatusProperties.BodyReadableIff` | src/main/java/com/example/notification/executors/StageStatusRequestExecutor.java:89-98 | the template reader accepts a body exactly when none of the three values holds a double quote, and then gives back the text, the title, an empty `picUrl` and the link |
| `StageStatusProperties.DispatchedBody` | src/main/java/com/example/notification/executors/StageStatusRequestExecutor.java:82-100 | the body of an attempted POST reads back as text `apiUser + " - Go to fix it please!"`, the formatted title, empty `picUrl` and the formatted link |
| `StageStatusProperties.PostedBodyReadableIff` | src/main/java/com/example/notification/executors/StageStatusRequestExecutor.java:82-100 | the body of an attempted POST reads back exactly when the sender's text, the title and the link hold no double quote, and then gives them back unchanged |
| `StageStatusProperties.QuotedSenderBreaksPost` | src/main/java/com/example/notification/executors/StageStatusRequestExecutor.java:89-100 | a double quote in `apiUser` makes the body of the attempted POST unreadable: nothing is escaped |
| `StageStatusRequestExecutor.Envelope` | src/main/java/com/example/notification/executors/StageStatusRequestExecutor.java:55-65 | the response code is 200; status is `success` iff the call completed and `failure` iff it threw; the `messages` key is present iff it threw, and then holds a one-element list with the exception's message; no other key |
| `StageStatusRequestExecutor.Execute` | src/main/java/com/example/notification/executors/StageStatusRequestExecutor.java:55-65 | code 200 always; incomplete settings give exactly `{"status": "success"}`, even for a request with a null stage; a transport `IOException` still gives exactly `{"status": "success"}`; a failure carries exactly one message |

## Left out

- The HTTP client (`HttpClients.createDefault`, `client.execute`, draining the response entity): this is network I/O. Its effect is the `Post` value and the `Transport` input.
- URI syntax: whether `new HttpPost(apiUrl)` accepts `apiUrl` is not computed from the string. The `Transport` input says so with `InvalidUrl`.
- JSON escapes: the body reader is a reader of the template, not a JSON parser. It gives no meaning to backslash escapes, so it does not say what a JSON consumer of the webhook would read.
- Logging of the incomplete settings and of the swallowed `IOException`: it does not change behaviour.
- Gson serialisation of the response map: the response is the map itself (`Response.json`), not its JSON text.
- `pluginRequest.getPluginSettings()`: the settings come from the Go server. They are an input to the model, and a failure of that call is not modelled. A null settings object is not modelled either: in the code it raises a `NullPointerException` at line 70, which `execute()` reports as a failure.
- Locale-dependent lower-casing: `ToLowerAscii` folds only `A`-`Z`. Java's `toLowerCase()` also folds non-ASCII letters, and under a Turkish locale `FAILED` does not become `failed`.
- The types of the request record: the request classes are not part of this model. Names and counters are taken as nullable strings, rendered as `%s` renders them.
- `StageStatusProperties.DispatchedBody`, `StageStatusProperties.BodyRoundTrip`, `StageStatusProperties.TitleWords` and `StageStatusProperties.MessageUrlSegments` state the read-back only for values without the separating character (`"`, space or `/`). With such characters the body, title or link is ambiguous, because nothing is escaped. For the body, `PostedBodyReadableIff` and `QuotedSenderBreaksPost` state what happens with a double quote: the body no longer reads back.
