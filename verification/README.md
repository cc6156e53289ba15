# Portfolio site: welcome-section animation logic and contact relay

This project models the two pieces of sequential logic in a personal portfolio
site and proves properties of them in Dafny.

- **`WelcomeScroll`** (`scroll.dfy`) covers the welcome section's response to
  scrolling. The section takes a scroll value and the `HIDE_WELCOME`
  threshold. From them it derives:
  - a clamped shrink progress, computed as
    `(scroll − 0.3·HIDE_WELCOME) / (0.7·HIDE_WELCOME)` and clamped to [0, 1];
  - an affine scale `1 − 0.8p` and opacity `1 − 0.7p`;
  - centring offsets `50p` and `30p`;
  - a hard cut-off: the section renders nothing once the scroll value
    exceeds the threshold.

  The model uses exact reals.
- **`Typewriter`** (`typewriter.dfy`) covers the subtitle's typewriter. Its
  state is `(index, text, deleting)`, and each firing of the scheduled timeout
  is one discrete tick. The text is kept as a real string. JavaScript's
  `substring(0, n)` is modelled with its clamping of `n`, counting one unit
  per character (see "## Left out" for UTF-16). So "the
  shown text is a prefix of the current string" is a theorem about the model
  and is not built into its encoding. A second machine keeps only the text's
  length and serves as the reference definition; the string machine is
  proved to refine it. The full-cycle lemmas prove:
  - type the string, pause 2000 ms, delete it, step past the empty string,
    then move to the next index modulo the list length;
  - the tick count and the elapsed milliseconds of each cycle.
- **`ContactRelay`** (`contact.dfy`) models `POST /api/sendMessage` as one
  pure function. Its inputs are:
  - the JSON body;
  - the configuration (`JWT_SECRET`, possibly unset, plus `EMAIL_USER` and
    `RECIPIENT_EMAIL`);
  - zod's e-mail format test, as a parameter `isEmail`;
  - the clock reading that goes into the notification;
  - whether each of the two mail sends succeeded.

  It returns the HTTP status, the JSON reply and the mails handed to the
  transport, in order. A single-stage reference handler (schema, then sends)
  is proved equal to the handler as written. This holds whenever the format
  test rejects the empty string, which zod's test does.

Two behaviours of the code are easy to misread; the model follows the code:
- A body whose secret key is wrong is answered with 400 ("input fields are
  not valid"), not 401. The schema's `refine` on `jwt_secretkey` rejects it
  before the explicit 401 check. That check is therefore unreachable.
- The welcome section is still drawn (at its smallest) when the scroll value
  equals `HIDE_WELCOME` exactly. It disappears only for values strictly
  greater (`scrollProgress <= HIDE_WELCOME` keeps it visible).

## Model

| member | source | states |
|---|---|---|
| WelcomeScroll.ShrinkStart | frontend_Skv/src/components/sections/WelcomeSection.tsx:184 | For a positive threshold, shrinking starts strictly between 0 and the threshold. |
| WelcomeScroll.ShrinkProgress | frontend_Skv/src/components/sections/WelcomeSection.tsx:184-188 | Progress lies in [0,1]. It is 0 at or below 30% of the threshold and 1 at or beyond the threshold. It is strictly between 0 and 1 exactly when the scroll value lies strictly between those two points, and there it is the linear fraction of the way from start to threshold. |
| WelcomeScroll.ShrinkMonotone | frontend_Skv/src/components/sections/WelcomeSection.tsx:184-188 | Shrink progress is non-decreasing in the scroll value. |
| WelcomeScroll.Scale | frontend_Skv/src/components/sections/WelcomeSection.tsx:191 | Scale lies in [0.2,1]. It is 1 exactly at progress 0 and 0.2 exactly at progress 1. |
| WelcomeScroll.Opacity | frontend_Skv/src/components/sections/WelcomeSection.tsx:192 | Opacity lies in [0.3,1]. It is 1 exactly at progress 0 and 0.3 exactly at progress 1. |
| WelcomeScroll.Render | frontend_Skv/src/components/sections/WelcomeSection.tsx:167-198 | The section renders nothing exactly when the scroll value exceeds the threshold. Otherwise scale is in [0.2,1], opacity in [0.3,1] and the centring offsets in [0,50] and [0,30]. Below the shrink start the section is at full size and opacity. At the threshold it is at 20% size and 30% opacity. In between, the drop in scale is 0.8 times the shrink progress, the drop in opacity 0.7 times it, and the offsets 50 and 30 times it. |
| WelcomeScroll.RenderStrictlyShrinks | frontend_Skv/src/components/sections/WelcomeSection.tsx:184-196 | Between the shrink start and the threshold, a larger scroll value gives strictly larger progress, strictly smaller scale and opacity, and strictly larger centring offsets. |
| WelcomeScroll.RenderMonotone | frontend_Skv/src/components/sections/WelcomeSection.tsx:191-196 | While visible, more scrolling never increases scale or opacity and never decreases the centring offsets. |
| WelcomeScroll.CutOffIsAbrupt | frontend_Skv/src/components/sections/WelcomeSection.tsx:167-198 | At the threshold the section is drawn at 30% opacity. Any value beyond it draws nothing. There is no fade to zero. |
| Typewriter.SubstringTo | frontend_Skv/src/components/sections/WelcomeSection.tsx:133-135 | `substring(0, n)` gives a prefix whose length is `n` clamped into [0, length], counting Dafny characters (see "## Left out"). A negative end gives the empty string. |
| Typewriter.Tick | frontend_Skv/src/components/sections/WelcomeSection.tsx:129-146 | After a tick the index is within the list and the text is no longer than the current string. |
| Typewriter.TickCases | frontend_Skv/src/components/sections/WelcomeSection.tsx:130-145 | The four cases of a tick: (1) Typing a proper prefix appends exactly the next character and changes nothing else, after 100 ms. (2) Typing the complete string leaves the text unchanged and turns to deleting after 100 + 2000 ms. (3) Deleting a non-empty prefix drops exactly its last character, after 50 ms. (4) Deleting at the empty string keeps it empty, stops deleting, and moves to index+1 modulo the list length, after 50 ms. |
| Typewriter.TickValid | frontend_Skv/src/components/sections/WelcomeSection.tsx:130-142 | From any state with an index in range, a tick leaves the text a prefix of the current string. |
| Typewriter.Run | frontend_Skv/src/components/sections/WelcomeSection.tsx:127-149 | Any number of ticks keeps the index within the list. |
| Typewriter.RunValid | frontend_Skv/src/components/sections/WelcomeSection.tsx:123-142 | After at least one tick, or from a valid state, the index is in range and the shown text is a prefix of the current string, however many ticks run. |
| Typewriter.InitialValidForever | frontend_Skv/src/components/sections/WelcomeSection.tsx:123-125 | From the mount state, for any non-empty list, the prefix invariant holds after every number of ticks. |
| Typewriter.ValidIsPrefixOfLength | frontend_Skv/src/components/sections/WelcomeSection.tsx:133-135 | In a valid state the shown text is exactly the first `len` characters of the current string. |
| Typewriter.CursorTick | frontend_Skv/src/components/sections/WelcomeSection.tsx:130-142 | The length-only reference tick keeps the index within the list. Its wrap from the last string to the first is written as an explicit test, not with `%`. |
| Typewriter.TickRefinesCursorTick | frontend_Skv/src/components/sections/WelcomeSection.tsx:130-142 | On valid states, a string tick matches the length-only reference tick. The reference tick types or deletes one character, turns around when the string is complete, and moves to the next string (0 after the last) when it is empty. |
| Typewriter.TypingCompletes | frontend_Skv/src/components/sections/WelcomeSection.tsx:135-145 | From the first `k` characters, `n − k` typing ticks (n the string's length) of 100 ms each produce the complete string. |
| Typewriter.DeletingEmpties | frontend_Skv/src/components/sections/WelcomeSection.tsx:132-145 | From the first `k` characters, `k` deleting ticks of 50 ms each reach the empty string. The machine is still deleting and still on the same string. |
| Typewriter.TypeThenPause | frontend_Skv/src/components/sections/WelcomeSection.tsx:135-139 | From empty, `n + 1` ticks taking `100·n + 2100` ms (n the string's length) end on the complete string with deletion starting. |
| Typewriter.DeleteThenAdvance | frontend_Skv/src/components/sections/WelcomeSection.tsx:132-142 | From the complete string while deleting, `n + 1` ticks taking `50·n + 50` ms (n the string's length) end on the next string (wrapping), empty and typing. The extra tick is the one on the empty string. |
| Typewriter.FullCycle | frontend_Skv/src/components/sections/WelcomeSection.tsx:122-149 | One whole cycle on string `i` takes `2n + 2` ticks and `150n + 2150` ms for a string of length n. It ends at the empty, typing state of string i+1 modulo the list length. |
| Typewriter.TwoStringCycle | frontend_Skv/src/components/sections/WelcomeSection.tsx:140-142 | With two strings, one cycle moves from the first string to the second, and a second cycle wraps back to the mount state. |
| Typewriter.WelcomeTextsCycle | frontend_Skv/src/components/sections/WelcomeSection.tsx:277-278 | On the section's two strings, 44 ticks reach the second string and 76 ticks return to the mount state. |
| ContactRelay.SchemaAccepts | backend_Skv/server.js:15-21 | Accepts exactly a JSON object with non-empty string name and message, a string email the format test accepts, an absent or string phone, and a string jwt_secretkey equal to a set JWT_SECRET. Acceptance implies name and message are truthy and the key is `===` the secret. |
| ContactRelay.PhoneShown | backend_Skv/server.js:73 | The notification shows "Not provided" exactly when the phone is absent or empty (or literally "Not provided"). Otherwise it shows the submitted phone. |
| ContactRelay.MailsFor | backend_Skv/server.js:65-90 | An accepted request yields exactly two mails, both from EMAIL_USER. The first goes to RECIPIENT_EMAIL with subject "New Contact: " + name. It carries name, email, message, the phone as `PhoneShown` renders it and the given timestamp. The second goes to the submitter with the fixed thank-you subject and thanks them by name. |
| ContactRelay.SendMessage | backend_Skv/server.js:39-108 | The status is always 200, 400 or 500, never 401. A schema rejection, including any secret mismatch, gives 400 "input fields are not valid" with no mail attempted. Any mail attempted implies the schema accepted, and the first mail goes to the recipient. A second mail implies the first send succeeded and goes to the submitter. 200 implies both sends succeeded and the success reply. 500 implies the failure reply after at least one attempt, and exactly one attempt when the first send failed. |
| ContactRelay.PresenceCheckDead | backend_Skv/server.js:51-56 | After the schema accepts, name and message are truthy. The email is truthy unless the format test accepts the empty string, so the manual presence check is dead. |
| ContactRelay.SecretCheckDead | backend_Skv/server.js:58-63 | After the schema accepts, the secret key strictly equals the configured secret, so the 401 branch is unreachable. |
| ContactRelay.HandlerIsSingleStage | backend_Skv/server.js:39-108 | When the format test rejects "", the two-stage handler equals the single-stage reference, which runs the schema and then sends in order, the second only after the first. |
| ContactRelay.StatusCharacterised | backend_Skv/server.js:41-106 | 400 exactly when the schema rejects, 200 exactly when it accepts and both sends succeed, 500 exactly when it accepts and a send fails. A 400 carries the "input fields are not valid" reply and no mails. |
| ContactRelay.FirstFailureStops | backend_Skv/server.js:92-106 | When the first send fails, the outcome does not depend on the second send's result (it is never attempted) and is never 200. |
| ContactRelay.SecondFailureAfterNotification | backend_Skv/server.js:92-106 | When the second send fails, the notification has already been sent to the recipient, yet the reply is 500 "Failed to send message". |
| ContactRelay.UnsetSecretRejectsAll | backend_Skv/server.js:20 | With JWT_SECRET unset, every request gets 400 "input fields are not valid". |

## Left out

- ContactRelay.Config: `EMAIL_USER` and `RECIPIENT_EMAIL` are assumed set. If `RECIPIENT_EMAIL` is unset the source builds a mail with `to: undefined`, whose fate is up to the mail transport, which appears here only as the send-outcome flags.
- `HIDE_WELCOME` lives in a constants module that is not part of this model. It is a parameter, assumed positive.
- Floating-point rounding: the scroll mapping is over exact reals.
- Mouse tracking, hover animation and framer-motion transitions are rendering only, and so are the section's per-element translations and the subtitle's own fade to zero (frontend_Skv/src/components/sections/WelcomeSection.tsx:225-317). Render and CutOffIsAbrupt describe the section's container. The per-breakpoint displacement multipliers are not part of the modelled file.
- Timer and effect scheduling: each timeout firing is one tick, and the pausing tick carries the inner 2000 ms timeout. The model assumes the parent does not re-render while the typewriter runs. In the component as written, every mouse move or new scroll value re-renders `WelcomeSection` and passes a fresh `texts` array. That re-runs the effect, which re-arms the tick (continuous movement can stall typing) and, during a pause, schedules further uncancelled `setIsDeleting(true)` timeouts that can switch a later string to deleting partway through typing it. Stacked pause timeouts, stalls and unmount cancellation are not modelled.
- Typewriter.SubstringTo: counts one unit per Dafny character (a Unicode scalar value), whereas JavaScript's `length` and `substring` count UTF-16 code units. For strings outside the Basic Multilingual Plane the model types a character in one tick where the component takes two and briefly shows a lone surrogate. The strings the section passes are ASCII, where the two agree.
- A change of the `texts` prop while mounted is not modelled; the list is fixed per run.
- Typewriter.Tick requires the index to lie within the list. With an empty list the component would call `substring` on `undefined` and throw.
- Express, CORS, JSON body parsing, `app.listen` and the `GET /` greeting are transport plumbing.
- Rate limiting (2 requests per 10-minute window) is done by express-rate-limit, whose store is not visible. Only its constants, `RateWindowMs` and `RateMax`, are recorded, and the 429 reply is not modelled.
- zod's e-mail regular expression is the parameter `isEmail`. The results that depend on it rejecting "" say so in their `requires`.
- Nodemailer and the mail transport: each send is a success or failure flag. Thrown errors are logged and not modelled.
- The HTML templates and the locale-formatted date are reduced to structured mail bodies. The date is an opaque `sentOn` string passed in.
