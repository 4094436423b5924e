# Bulk mail sender: a Dafny model of its decision logic

The system is a small Streamlit tool. An operator uploads a table of recipients, writes a subject template and a body template, and optionally adds a PDF and an image. The tool then sends one message per row over a single authenticated SMTP session. A second page runs diagnostics: it tests an SMTP login, sends a single test message (with an inline signature image when one is on disk), and summarises a campaign database.

This project models the pure decisions behind those actions and proves what they promise:

- `Throttle`: the pause after each row, which depends on the number of messages sent so far.
- `Template`: `template.format(**context)` restricted to flat `{key}` fields and the `{{`/`}}` escapes. The first problem met, reading left to right, decides the error. `render_email_template` wraps the result into a (text, error) pair.
- `Transport`: where and how the bulk sender connects (`get_smtp_settings`, `create_smtp_connection`). Also the diagnostics page's own inline variant, for the connection test and for the test send.
- `Recipients`: the table once it has been read. Column names are stripped, `Name` and `Email` are required, and rows without an email are dropped. The remaining rows keep their order.
- `Mime`: the shape of the bulk message and of the test message, as an abstract MIME tree that can be read back.
- `Ledger`: the bookkeeping of a batch, independent of how a row's message is made. It covers the results table, which reply each submission gets, the sent count, and the pause after every row.
- `Dispatch`: the per-row context, rendering and message building, the bulk send itself (`send_bulk_emails`), and the update of the all-time total.
- `ProgressBar` and `Labels`: the progress shown after each row, and the row labels it is computed from.
- `Campaigns`: the campaign panel's "done" and "due" counts.
- `Diagnostics`: the connection test, the test-send plan and the search for a signature file.

The SMTP session is abstract. The outcome of connecting and logging in is a parameter (`LoginReply`, `SessionRun`), and so is the server's reply to the k-th submitted message (`reply: nat -> Reply`). Sleeping becomes a returned sequence of pauses, in tenths of a second. The clock is a parameter (`now`). Reading files becomes an input (the raw table, the set of file names present).

The throttle runs after every row, failed rows included, with the batch's running sent count (app.py:260); see `Ledger.FailedRowRepeatsPause`.

## Model

| member | source | states |
|---|---|---|
| Throttle.DelayTenths | app.py:111-123 | The pause is 0, 2.5, 5 or 8 seconds. There is no pause before anything was sent, and a pause only ever follows a multiple of 10 sends. |
| Throttle.DelayIsLongestApplicable | app.py:114-120 | Checking 100, then 50, then 10 amounts to taking the longest pause among the advertised rules that fire (every 10 → 2.5 s, every 50 → 5 s, every 100 → 8 s). |
| Throttle.DelayPeriodic | app.py:114-120 | The throttle repeats itself every 100 sends. |
| Throttle.DelayExamples | app.py:111-123 | 100 and 200 sends give 8 s, not 5 s or 2.5 s. 50 and 150 give 5 s, 10 and 30 give 2.5 s, and 77, 0 and negative counts give none. |
| Template.Render | app.py:44-45 | An error naming a missing placeholder always names a flat key that really is absent from the context. |
| Template.RenderPair | app.py:42-51 | The error text is empty exactly when rendering succeeds, and then the text is the rendering. On failure the text is empty. A missing key is reported as `Template error: missing placeholder {…} in data.`, with the key written as Python's `repr` writes it and every `'` stripped from both ends. Any other failure is `Template rendering error: ` followed by the exception's message. |
| Template.ErrorText | app.py:47-51 | Every failure has a non-empty message, so an empty message means success. |
| Template.UnclosedFault | app.py:44-51 | A field that no `}` closes is reported by where Python's scan runs out. Still in the name: `expected '}' before end of string`. After `:`: `unmatched '{' in format spec`. Right after `!`: `end of string while looking for conversion specifier`. After the conversion character, at the end or at a `:`: the format-spec message. At anything else: `expected ':' after conversion specifier`. |
| Template.ShownKey | app.py:48 | The key as shown is `repr(key)` with `'` stripped from both ends. It consists of printable characters and is never longer than the `repr`. |
| Template.ShownPlainKey | app.py:47-49 | A key of printable characters without `'` or a backslash is shown exactly as written. |
| Template.ShownDoubleQuoted | app.py:47-49 | A key holding a `'` but no `"` or backslash is shown inside double quotes, because `repr` chose them and the strip leaves them. |
| Template.ShownBackslash | app.py:47-49 | A backslash between two plain parts of a key is shown doubled. |
| Template.ShownKeyExampleQuote | app.py:47-49 | The key `Company's` is shown as `"Company's"`. |
| Template.ShownKeyExampleBackslash | app.py:47-49 | The key `a\b` is shown as `a\\b`. |
| Template.ShownKeyExampleTab | app.py:47-49 | A tab key is shown as the two characters `\t`. |
| Template.RenderPrinted | app.py:45 | A template written as literals, doubled braces and `{key}` holes whose keys are all present renders to the literals with each hole replaced by its value. |
| Template.RenderOkParses | app.py:45-46 | Conversely, every template that renders is such a list of pieces, and the rendering is exactly that list filled in. |
| Template.RenderFirstMissing | app.py:47-49 | When the first hole with an absent key is at position n, rendering fails naming that key, whatever flat pieces follow it. |
| Template.RenderMissingWhateverFollows | app.py:44-49 | After flat pieces whose keys are all present, a hole with an absent key fails naming that key, whatever text follows, malformed or not. |
| Template.RenderExampleGreeting | app.py:45-46 | `Hi {Name}` with Name = Alice renders to `Hi Alice`. |
| Template.RenderExampleMissingCompany | app.py:47-49 | The default subject's `{Company}` fails with a missing `Company` when the row has no such column. |
| Template.RenderExampleMissingBeforeBrace | app.py:44-49 | A missing key that comes before a stray `}` is what gets reported. |
| Template.RenderExampleBraceBeforeMissing | app.py:50-51 | A stray `}` that comes before a missing key is a formatting failure, not a missing key. |
| Template.RenderExampleEscapes | app.py:45 | `{{N}}` renders to the literal `{N}` and looks nothing up. |
| Template.RenderExampleBraceInName | app.py:44-51 | A `{` inside a field name is the formatting failure `unexpected '{' in field name`, whether or not a `}` follows and even when the key before it exists. |
| Template.RenderExampleUnclosed | app.py:44-51 | `{x`, `{x:`, `{x!`, `{x!r` and `{x!rx` fail with the name, format-spec, end-of-string, format-spec and after-conversion faults respectively. |
| Transport.SenderDomain | app.py:56 | With an `@`, the domain is the lower-cased text after an `@` that no later `@` follows, that is, after the last one. It never contains `@` and is shorter than the address. It is empty when the address has no `@`. |
| Transport.AutoSettings | app.py:54-82 | The guessed settings always agree with their port, which is 465 or 587. The port is 465 exactly when the domain contains `gmail.com`. The host is the Gmail host, the Outlook host or `smtp.<domain>`. Without an `@` it is the Gmail host on 587 with STARTTLS. |
| Transport.AutoSettingsCases | app.py:54-82 | A domain containing `gmail.com` gives Gmail on 465 with implicit TLS. The three Outlook domains give Outlook on 587 with STARTTLS. Any other non-empty domain gives `smtp.<domain>` on 587 with STARTTLS. An empty domain, from no `@` or from nothing after the last one, gives the Gmail host on 587. |
| Transport.ChooseSettings | app.py:87-96 | A truthy host with a non-zero port is used as given, with switches matching the port. Otherwise the domain guess is used unchanged. |
| Transport.ModeOf | app.py:100-105 | Implicit TLS exactly when the SSL switch is on, STARTTLS exactly when only the STARTTLS switch is on, plaintext otherwise. For consistent settings that means 465, 587 and any other port. |
| Transport.ChosenSettingsConsistent | app.py:87-96 | Whatever is chosen, the SSL switch is on exactly for port 465 and the STARTTLS switch exactly for 587, so they are never both on. |
| Transport.ModeFollowsPort | app.py:100-105 | The session is opened with implicit TLS on 465, with STARTTLS on 587, and in the clear on any other port. |
| Transport.FormOverride | app.py:424-425 | The form passes a host and a port together or neither. They are passed exactly when the stripped host field is non-blank. The host is the stripped field and the port is the entered one. |
| Transport.OverrideIffHostEntered | app.py:424-425 | With the form's port, the explicit settings are used exactly when a non-blank host was entered; otherwise the domain guess is used. |
| Transport.ProbeDomain | Testapp.py:199 | The diagnostics domain agrees with the bulk sender's when there is an `@`. Without one it is the whole lower-cased address. |
| Transport.ProbeMode | Testapp.py:214-220 | The diagnostics page uses implicit TLS exactly on port 465 and STARTTLS on every other port, never plaintext. |
| Transport.ProbeEndpoint | Testapp.py:199-220 | A non-blank host field wins with the entered port. Otherwise a domain containing `gmail.com` gives the Gmail host on 465 for both purposes and whatever port was entered. The Outlook family gives the Outlook host on 587. Any other domain gives `smtp.<domain>`, on 587 for the connection test and on the entered port for the test send. The mode is implicit TLS exactly when the port is 465, never plaintext. |
| Transport.ProbeAgreesWithApp | Testapp.py:199-209 | With an `@` followed by a domain, no host override, and either the connection test or port 587, the diagnostics page connects exactly where the bulk sender would. |
| Transport.ProbePurposesDiverge | Testapp.py:295-305 | For an unknown domain with no host override, the connection test always uses 587 but the test send uses the entered port, on the same host. |
| Transport.NoAtAppExample | app.py:56-78 | An address without `@` sends the bulk sender to the Gmail host. |
| Transport.ProbeGuessesSmtp | Testapp.py:199-209 | With a blank host field and a domain that is neither Gmail nor Outlook, the diagnostics page connects to `smtp.<domain>`. |
| Transport.NoAtProbeExample | Testapp.py:199-209 | The same address sends the diagnostics page to `smtp.alice`. |
| Transport.ExplicitPortAppExample | app.py:87-105 | An explicit port 25 keeps the bulk sender in plaintext. |
| Transport.ExplicitPortProbeExample | Testapp.py:214-220 | An explicit port 25 still makes the diagnostics page issue STARTTLS. |
| Transport.TrailingAtExample | app.py:56-78 | An address ending in `@` gives the Gmail host in the bulk sender but `smtp.` on the diagnostics page. |
| Text.Strip | app.py:32 | `str.strip()`: the result is the slice of the input starting at its first non-space character. Everything cut from either end is whitespace, the ends of the result are not, and the result is empty exactly when the input is all whitespace. |
| Recipients.ColumnIndex | app.py:38 | The position found holds the column and is the first one with that name. There is none exactly when no column has that name. |
| Recipients.KeepWithCell | app.py:38 | Every kept row has a value in the email column and is one of the input rows. |
| Recipients.Normalize | app.py:32-39 | There is no error exactly when the stripped columns include `Name` and `Email`. Otherwise the result is an empty table with the required-columns message. On success the columns are the stripped names and the rows are the input rows with a present cell in the first `Email` column. |
| Recipients.NormalizeSelectsEmailRows | app.py:32-39 | On success, row k of the table is the input row at position `idx[k]`. The positions strictly increase, and an input row is picked exactly when its email cell is present. So the rows without an email are the only ones dropped, and the order is kept. |
| Recipients.NormalizedRowsHaveEmail | app.py:38 | Every row of a normalised table has a present Email cell. |
| Recipients.KeepIsOrderedSelection | app.py:38 | Dropping is a filter and nothing else. The kept rows are exactly the rows with an email, taken at strictly increasing positions. |
| Recipients.DropSecond | app.py:32-39 | A two-row table under the header `Name, Email` whose second row has no email normalises to that header and the first row alone. |
| Recipients.StripNameExample | app.py:32 | The column ` Name ` is stripped to `Name`. |
| Recipients.DropExample | app.py:32-39 | A header ` Name , Email` with a row lacking an email normalises to the header `Name, Email` and the other row alone. |
| Mime.FilePart | app.py:149-161 | A file part carries its bytes. A `pdf` part is an attachment under its filename. Anything else is inline, with a Content-ID equal to its filename. |
| Mime.BulkMessage | app.py:218-232 | A mixed message from the sender to the stripped email, with the subject. The plain body comes first, then the PDF when both its data and its name are non-empty, then the image last under the same condition. |
| Mime.BulkMessageReadBack | app.py:218-232 | Reading the message back gives the body as the first plain text. The PDF's name is the only attachment name and the image's name is the only Content-ID, on an inline part. |
| Mime.SignatureSubtype | Testapp.py:308-309 | The image subtype is `png` exactly for a (case-insensitive) `.png` extension and `jpeg` otherwise. |
| Mime.SignatureSubtypeJpg | Testapp.py:308-309 | `firstmail.jpg` is sent as `image/jpeg`. |
| Mime.SignatureSubtypeUpperPng | Testapp.py:308-309 | `firstmail.PNG` is sent as `image/png`. |
| Mime.SignatureSubtypeOther | Testapp.py:308-309 | An unknown extension falls back to `image/jpeg`. |
| Mime.HtmlBody | Testapp.py:310-319 | The HTML is the fixed opening, then the body with every line break replaced by `<br/>` (four extra characters each, no line break left), then the fixed closing with the signature image. |
| Text.ReplaceCharConcat | Testapp.py:310 | `str.replace` on one character works piece by piece: replacing in a concatenation is concatenating the replacements. |
| Text.ReplaceCharOne | Testapp.py:310 | On one character, the needle becomes the replacement and any other character stays. |
| Text.ReplaceCharAround | Testapp.py:310 | One needle between two needle-free texts is traded for the replacement and nothing else changes. |
| Mime.HtmlTwoLines | Testapp.py:310-319 | Two lines of text become the two lines joined by `<br/>` between the fixed opening and closing. |
| Mime.HtmlReferencesSignature | Testapp.py:311-319 | The HTML always contains `cid:signature_image`. |
| Mime.TestMessage | Testapp.py:307-337 | The test message is `multipart/related` exactly when both the signature data and its name are non-empty. It then holds an `alternative` part with the plain body and its HTML, followed by the inline `image/<subtype>` part, whose subtype comes from the signature's extension, with the signature's data, filename and Content-ID `signature_image`. Otherwise it is `multipart/mixed` holding only the plain body. |
| Mime.SignedReadBack | Testapp.py:320-331 | The signed message reads back as the plain body first, no attachments, and exactly one Content-ID, `signature_image`. |
| Mime.UnsignedReadBack | Testapp.py:332-337 | The unsigned message is the plain body alone. |
| Mime.TestMessageReadBack | Testapp.py:307-337 | Either way the first plain text is the body and nothing is an attachment. With a signature there are three leaves: the plain text, HTML referencing `cid:signature_image`, and the inline image that carries that Content-ID under the signature's filename. |
| ProgressBar.ProgressPercent | app.py:256-257 | The progress after the row at a position never passes 100, and reaches 100 exactly at the last row. |
| ProgressBar.ProgressTrailBounded | app.py:256-257 | Every value shown during a batch is that row's percentage, within 0..100, and is 100 only at the last row. |
| ProgressBar.ProgressAsWritten | app.py:256 | The program's formula, computed from the row label, agrees with the position-based one whenever the label is below the row count. |
| ProgressBar.ProgressOverflow | app.py:256-257 | In a batch of at most 100 rows, a label at or past the row count drives the value past 100. |
| Labels.KeepFirstAndLast | app.py:38 | Of three rows whose middle row lacks an email, the first and the last are kept, at positions 0 and 2. |
| Labels.DroppedRowOverflowsProgress | app.py:256-257 | Three rows, the middle one without an email, leave labels 0 and 2 in a batch of 2, and the last row's progress is 150. |
| Ledger.ResultOf | app.py:206-251 | A row's result keeps its name and email. The status is Sent exactly when the message was prepared and the server accepted it. The message text is the success text, the rendering error, or `SMTP error: ` plus the server's reason. |
| Ledger.OutcomeAt | app.py:198-251 | Result i is row i's outcome under the reply to row i's own submission number, which is the count of prepared rows before it. |
| Ledger.SentWereSubmitted | app.py:234-242 | There are never more sends than submitted messages. |
| Ledger.Pauses | app.py:260 | The pause after the k-th row is the throttle applied to the number of rows sent among the first k. |
| Ledger.PauseAt | app.py:260 | The pause after row k depends only on the results up to and including row k. |
| Ledger.FailedRowRepeatsPause | app.py:260 | A failed row repeats the previous row's pause, since the sent count has not moved. |
| Ledger.Run | app.py:198-260 | The loop yields the reference results, submits exactly the prepared messages in row order, counts sent + failed = rows, pauses after every row according to the running count, and shows every row's progress. |
| Dispatch.CellText | app.py:199-202 | A present cell reads as its text and an empty cell as `nan`. |
| Dispatch.Field | app.py:199-200 | A field is the stripped cell text of the column with that name, or empty when there is no such column. Column names are taken as distinct; with a duplicate the first column is used. |
| Dispatch.Cells | app.py:202 | The keys are exactly the columns read so far, and the last column read holds its own cell's text. Column names are taken as distinct; with a duplicate the last column is used. |
| Dispatch.Context | app.py:202-204 | The context always holds `Name` and `Email`. |
| Dispatch.CellsLastWins | app.py:202 | A column's context value is its own cell when no later column has the same name. |
| Dispatch.ContextContents | app.py:202-204 | The keys are exactly the columns plus `Name` and `Email`. A column keeps its raw text. A missing `Name` or `Email` column defaults to the stripped field, which is empty. |
| Dispatch.Prepare | app.py:206-232 | A failure always has a non-empty message. A prepared message goes from the sender to the row's stripped email. |
| Dispatch.PrepareCases | app.py:206-232 | A row prepares exactly when both templates render. A subject failure wins over a body failure. The message carries the rendered subject and body and the batch's files. |
| Dispatch.SubjectFailureSkipsBody | app.py:206-210 | When the subject fails, the body template is never looked at. |
| Dispatch.PlanOf | app.py:198-232 | A row's plan carries its stripped name and email. It is prepared exactly when both templates render, and then goes from the sender to the row's email. A failed plan has a non-empty message. |
| Dispatch.Finish | app.py:233-251 | A row's result line, in terms of its preparation and the server's reply. The message is never empty. |
| Dispatch.ResultAt | app.py:198-251 | In the reference results of a batch, entry i is row i finished with the reply to its own submission number. |
| Dispatch.SentAtMostSubmitted | app.py:234-242 | A batch never counts more sends than messages it submitted. |
| Dispatch.SendRows | app.py:197-260 | The connected loop produces the reference results, submissions, tallies, pauses and progress. |
| Dispatch.SendBulk | app.py:164-267 | An empty table returns (0, 0, []) without connecting. A failed login raises `SMTP authentication failed: ...` before any submission and without quitting. Otherwise every row is processed in order, sent + failed equals the row count, and quit is attempted. |
| Dispatch.NewAllTimeTotal | app.py:446-448 | A new total is saved exactly when something was sent, and it is larger than the old one. |
| Dispatch.StoredTotalMatchesSummary | app.py:446-463 | The total kept afterwards always equals the summary's `prior + sent`. |
| Campaigns.DueScan | Testapp.py:146-150 | The panel's due count fails only when some recipient that is not done has a missing or malformed date. The error is that of the first such recipient: `MissingDate` for a missing key, `MalformedDate` for a text that is not an ISO date. |
| Campaigns.DueScanAgrees | Testapp.py:146-150 | The count succeeds exactly when every recipient that is not done has a readable date, and then it equals the reference due count. |
| Campaigns.DoneCount | Testapp.py:145 | The done count fits within the recipients, is 0 exactly when nobody is done, and equals their number exactly when everybody is. |
| Campaigns.DueCount | Testapp.py:146-150 | The reference due count fits within the recipients, is 0 exactly when nobody is due, and equals their number exactly when everybody is. |
| Campaigns.DoneIsNeverDue | Testapp.py:145-149 | A done recipient is never due and its date is never read. |
| Campaigns.DoneAndDueFit | Testapp.py:145-150 | Done plus due never exceeds the number of recipients. |
| Campaigns.ColorOf | Testapp.py:151 | The alert colour is used exactly when something is due. |
| Campaigns.Summarize | Testapp.py:139-164 | An empty database shows the no-campaigns note. Otherwise one line per campaign up to the first read error, and all of them when there is none. Every listed campaign was readable. An error is the read error of the first unreadable campaign, right after the listed ones, and there is no error exactly when every campaign is readable. |
| Campaigns.Lines | Testapp.py:143-162 | Each line carries its campaign's name and recipient count, in stored order. The lines stop at the first unreadable campaign, whose read error is returned, and there is no error exactly when every campaign is readable. |
| Campaigns.LinesAreCounts | Testapp.py:143-158 | Each shown line's done and due are the reference counts, and together they fit within its recipients. |
| Campaigns.BobIsDone | Testapp.py:145-149 | A recipient with 5 of the default 5 follow-ups is done, not due, and its missing date is never read. |
| Campaigns.MissingDateStops | Testapp.py:143-162 | A recipient short of the plan with no date stops the listing with a read error, before any line is shown. |
| Diagnostics.FindSignature | Testapp.py:264-272 | A signature is found exactly when one of `firstmail.jpg`, `.png`, `.jpeg` exists, and it is the first of them in that order. |
| Diagnostics.SignatureSearchExample | Testapp.py:266-272 | With only the PNG and JPEG present the PNG wins, and other names are never looked for. |
| Diagnostics.SessionLog | Testapp.py:211-232 | The log of a session names the endpoint first and then the handshake, unless connecting failed. It ends in `Login successful` exactly when the run completed, and otherwise in the fault that stopped it, with `Login successful` just before that line when only the quit failed. |
| Diagnostics.RunConnectionTest | Testapp.py:191-240 | Without an email or a password there is only a warning. Otherwise the log starts with the endpoint connected to and ends in `Login successful` exactly when the test succeeded, which is exactly when login and quit both went through. A failed run's last line is the fault that stopped it. When only the quit failed, `Login successful` comes just before that line. |
| Diagnostics.HandshakeMatchesEndpoint | Testapp.py:214-220 | The logged handshake names SSL exactly for implicit TLS and STARTTLS exactly for the STARTTLS mode. |
| Diagnostics.PlanTestSend | Testapp.py:289-337 | Without a sender, a password or a recipient there is only a warning. Otherwise the message is submitted to the diagnostics endpoint for the test send, with the entered sender, recipient and subject. The message is the test message built from the body and the signature found. |
| Diagnostics.TestSendReadBack | Testapp.py:289-337 | What the test send submits reads back as the entered body first, with no attachment. `signature_image` is its only Content-ID exactly when a signature was found. |
| Diagnostics.RoutingIgnoresRecipient | Testapp.py:295-305 | The endpoint depends on the sender and the host and port fields only. |
| Diagnostics.TestsShareEndpointOnSubmissionPort | Testapp.py:199-209 | On port 587 the test send connects exactly where the connection test does. |

## Left out

- Reading the uploaded file (CSV/Excel dispatch, read errors), `load_total_sent_count` and `save_total_sent_count`: file I/O. The model starts from the parsed table and returns the total to save.
- Sleeping, the progress bar widget, the status log lines and the Streamlit pages: UI and timing. Pauses are returned in tenths of a second and progress values are returned as a sequence.
- The SMTP wire protocol, TLS, base64 transfer encoding and `message.as_string()`: messages are abstract MIME trees, and header texts are not serialised.
- Exceptions raised while building a message, outside the `sendmail` try block, and a progress value the bar rejects: both would abort the batch through the `finally` clause. The model has no such exits.
- Template.Render: format specs (`{x:>5}`) and conversions (`{x!r}`) render in Python but are a generic failure here. An attribute or index field (`{a.b}`, `{a[0]}`) is always a generic failure here. Python reports a missing base key when the base is absent. When the base is present, Python renders the field (`{Name[0]}` is the name's first character, `{Name.upper}` the repr of a bound method) or fails with a type, attribute or index error. Positional fields are a failure in both. Only ASCII digits make a field positional in the model: a key of other Unicode decimal digits (`{٣}`, `{３}`) is looked up as a keyword here, where Python reads it as a positional index and fails with an index error.
- Template.ErrorText: the formatting failure texts follow Python's messages for stray braces, for a `{` in a field name, and for a field no `}` closes. The text for an unsupported field is this model's own. Python raises a different error for some of these fields: `expected ':' after conversion specifier` for `{x!ab}`, and an unknown-conversion error or a format error for others. Unsupported fields include conversions, format specs, attributes, indexes and positional fields.
- Template.UnclosedFault: Python's skipping of `[...]` inside a field name is not modelled. An unclosed field whose name contains `[` is reported as `expected '}' before end of string`, where Python can reach a format spec or conversion beyond the `]` and report that instead.
- Template.ShownKey: `repr` is exact for characters up to U+00FF. Characters above U+00FF are all taken as printable, so they are shown as they are rather than as the `\u`/`\U` escapes Python uses for some of them.
- Dispatch.CellText: cells are text. pandas' rendering of numbers and dates through `str()` is not modelled; an empty cell reads as `nan`.
- Dispatch.Context: the program's context maps columns to the raw cell objects and formats them with `format()`. Here they are their text.
- Recipients.Normalize: duplicate column names are not given pandas' semantics. The first `Email` column decides which rows are kept.
- Dispatch.Field: with two columns of the same name (possible once names are stripped), pandas' `row.get` returns both cells as a Series. The model takes the first column's cell.
- Dispatch.Cells: with a duplicated column name, pandas' `row[col]` gives a Series holding all the cells of that name. The model keeps the last column's cell, as a dict comprehension over distinct values would.
- Dispatch.CellsLastWins: states the last column's value for a duplicated name, which is the model's choice, not pandas' Series.
- Text.Lower: ASCII case mapping only. Text.IsSpace: the characters Python's `str.strip()` removes, without Unicode normalisation.
- ProgressBar.ProgressAsWritten: integer arithmetic. The program multiplies a float quotient, which can land one below (`int(0.29 * 100)` is 28).
- Ledger.Run, Dispatch.SendRows, Dispatch.SendBulk: the progress they return is the corrected, position-based value (see Findings), not the label-based one the program computes.
- Campaigns.DueScan: dates are already-parsed instants, and the clock is the parameter `now`. JSON parsing errors of the database file, the clear and refresh buttons, and the order of the stored dictionaries (taken as sequence order) are not modelled.
- Diagnostics.RunConnectionTest: the failure texts (authentication, timeout, other) are kept as kinds, not as formatted lines. The kind logged is always the one that stopped the run.
- Diagnostics.PlanTestSend: the session that submits the message (login, `sendmail`, quit) and its success or error display are I/O. The model returns the endpoint and the message to submit.
- The environment checks and the library version table of the diagnostics page are reports about the host machine, not decisions.

## Findings

| source | as written | input that shows it | evidently intended | confidence | as-written member | corrected member |
|---|---|---|---|---|---|---|
| app.py:256 | `int(((idx + 1) / total) * 100)` with `idx` the row's index label from `df.iterrows()`. After `dropna` the labels keep gaps. | A file with rows A, B (no email), C. The kept rows have labels 0 and 2 and `total` is 2, so the last row gives 150, which the progress bar does not accept. | Progress from the row's position in the kept table, reaching exactly 100 at the last row. | medium; not executed | Labels.DroppedRowOverflowsProgress | ProgressBar.ProgressPercent |
