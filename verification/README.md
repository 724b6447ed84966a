# Site script model

A Dafny model of the interactive core of the agency site's front-end script. Two
versions of that script exist: `assets/js/script.js` (the **current** script, the one the
pages load) and the older root `script.js` (the **legacy** script). Where they differ,
each operation takes a `Variant` (`Current` or `Legacy`) and its contract says what each
version does.

The modules follow the script's components:

- `Carousel`: the testimonial carousel. It covers `showTestimonial`, next and previous
  with wrap-around, and JavaScript's `%` and its NaN. It covers the single rotation
  interval that the current script restarts on every explicit navigation, and that the
  legacy script leaks when rotation is started twice. Page events are replayed over the
  current script.
- `Validation`: the `validationRules` table of each script and `validateField`'s checks in
  their order (required, pattern, minimum length). It also covers the error text each
  failure shows and `validateForm`, which validates every field even after a failure.
- `Submission`: the `isFormSubmitting` guard around the one request. It covers how
  `submitFormData` turns a reply into success or an error, and what success (`resetForm`)
  and failure leave in the form.
- `Portfolio`: the filter buttons. The current script matches against a
  space-separated category list; the legacy script compares the whole attribute. The
  current script also sizes each grid as compact when at most two cards stay visible.
- `Scroll`: the header's `scrolled` class and the back-to-top button.
- `Fuzzy` and `ChatBot`: the chat assistant's responder. It has three passes: an exact
  keyword pass over the eleven-category table in declaration order, a fuzzy pass scoring
  every (token, keyword) pair, and small-talk phrases. Then comes the default reply, and
  `sendMessage` wraps it all.
- `Text`, `Marks`, `Wrappers`, `Variants`: helpers. They model JavaScript's `trim`, `\s`,
  `includes`, `split(...).filter(Boolean)`, `toLowerCase` and `join`, the "exactly one
  element active" marking, `Option`, and the two script versions.

The browser is abstracted:

- DOM state is a datatype.
- `setInterval`'s ids are a counter.
- The reply to the one `fetch` is a parameter.
- The Unicode letter class `\p{L}` is a parameter constrained only to contain the ASCII
  letters and no white space.

`submitFormData`'s reason reaches only `console.error` (`assets/js/script.js:599-609`);
the visitor sees a fixed line, whatever the server said. The model follows the code:
`Submission.ErrorLineIgnoresReason`.

## Model

| member | source | states |
|---|---|---|
| `Carousel.JsRem` | assets/js/script.js:252 | JavaScript `%` on an integer and a count: NaN exactly when the count is 0, the sign of the dividend, and the identity below the count and one subtraction below twice the count |
| `Carousel.Show` | assets/js/script.js:224-246 | an index outside the testimonials (NaN included) changes nothing; otherwise exactly that testimonial and that dot become active and the index becomes current |
| `Carousel.Next` | assets/js/script.js:251-254 | shows the following testimonial, wrapping from the last to the first; with no testimonials nothing changes |
| `Carousel.Prev` | assets/js/script.js:259-262 | shows the preceding testimonial, wrapping from the first to the last; with no testimonials nothing changes |
| `Carousel.PrevAfterNext` | assets/js/script.js:251-262 | previous after next returns to the view that was shown |
| `Carousel.NextAfterPrev` | assets/js/script.js:251-262 | next after previous returns to the view that was shown |
| `Carousel.ShowAsWritten` | assets/js/script.js:225-240 | the guard as written: a NaN index passes `index < 0 \|\| index >= N` and the indexing throws, exactly for NaN, after every testimonial and dot has been made inactive and before the current index changes |
| `Carousel.NextAsWritten` | assets/js/script.js:251-254 | with testimonials the code as written behaves as the corrected `Next` |
| `Carousel.NextWithoutTestimonialsThrows` | assets/js/script.js:1047 | on a page with no testimonials the rotation tick, started unconditionally, throws; the corrected `Next` leaves the view alone |
| `Carousel.Start` | assets/js/script.js:267-272 | a fresh interval id is stored; the current script first clears the interval the handle named, the legacy one (script.js:223-225) does not |
| `Carousel.Stop` | assets/js/script.js:277-282 | clears the interval the handle names and empties the handle |
| `Carousel.StartKeepsOneInterval` | assets/js/script.js:267-272 | starting with the current script from a leak-free state leaves exactly one live interval and no leak |
| `Carousel.StartTwiceCurrent` | assets/js/script.js:267-272 | starting twice with the current script leaves only the newer interval live |
| `Carousel.StartTwiceLegacyLeaks` | script.js:223-235 | starting twice with the legacy script leaves two live intervals, and the following stop clears only the newer one |
| `Carousel.DotClickAsWritten` | assets/js/script.js:332-338 | a dot click on a numeric `data-slide` is the dot-click event; on a non-numeric one the page is left with no testimonial and no dot active, and the rotation is neither stopped nor restarted |
| `Carousel.Step` | assets/js/script.js:329-381 | every carousel event keeps one dot per testimonial, an in-range index and no leaked interval; dot clicks, arrow keys, arrow buttons and long swipes leave exactly one fresh live interval; hovering leaves none; a tick leaves the timers alone |
| `Carousel.Load` | assets/js/script.js:885-888 | after `initializeTestimonials` and the second unconditional start at line 1047, the first testimonial is shown (when there is one) and exactly one interval is live |
| `Carousel.AtMostOneInterval` | assets/js/script.js:267-282 | whatever sequence of events follows, the current script never has more than one rotation interval live |
| `Validation.EmailMatchIff` | assets/js/script.js:400 | the email scan accepts exactly the strings of the regex's shape: non-empty runs without white space or `@` around one `@` and a later `.` |
| `Validation.PhoneMatchesRegex` | assets/js/script.js:406 | dropping one leading `+` and checking the body is the optional sign of both phone regexes (and of script.js:271) |
| `Validation.CheckRule` | assets/js/script.js:439-461 | the checks in their order: required-and-empty fails first, an empty optional value passes, then the pattern, then the minimum length; passing means the value is acceptable under the rule; length is counted in UTF-16 code units |
| `Validation.ValidateField` | assets/js/script.js:425-462 | a field without a rule passes; otherwise it passes exactly when its trimmed value is acceptable, and a required field fails as required exactly when its value is all white space |
| `Validation.ErrorText` | assets/js/script.js:439-459 | a required failure shows the fixed text; pattern and length failures show the rule's own message; a pass clears the error |
| `Validation.ShortNameFailsOnLength` | assets/js/script.js:390-396 | a one-letter name passes the pattern but fails the minimum length in both scripts, showing the name message |
| `Validation.FullNamePasses` | assets/js/script.js:390-396 | a two-word ASCII name passes in both scripts |
| `Validation.EmailExamples` | assets/js/script.js:397-401 | a string without `@` fails the email pattern and `a@b.co` passes it, in both scripts |
| `Validation.LegacyNameAcceptedByCurrent` | assets/js/script.js:390-396 | every name the legacy ASCII-only rule (script.js:258-263) accepts, the current Unicode rule accepts too |
| `Validation.ArabicNameOnlyCurrent` | assets/js/script.js:393-395 | an Arabic name passes the current name rule and fails the legacy pattern |
| `Validation.EmojiMessagePasses` | assets/js/script.js:413-416 | five emoji meet the message field's ten-character minimum, each counting two code units |
| `Validation.BlankPhonePasses` | assets/js/script.js:402-407 | the optional phone field passes when blank, in both scripts |
| `Validation.SingleDigitPhone` | script.js:269-273 | a single digit passes only the legacy phone pattern; the current phone rule's error text is empty |
| `Validation.SpacedNumberPhone` | assets/js/script.js:402-407 | a number with a leading zero and spaces passes only the current phone pattern |
| `Validation.CheckAll` | assets/js/script.js:480-491 | every item is checked in order even after a failure, and the result is true exactly when all passed |
| `Validation.ValidateForm` | assets/js/script.js:480-491 | every field's verdict is recorded, and the form is valid exactly when every field passes |
| `Submission.SubmitResult` | assets/js/script.js:533-552 | success exactly on an `ok` response; a failed response with an `errors` array throws its messages joined with ", ", any other the generic reason, a network error its own text |
| `Submission.ServerReasonsJoined` | assets/js/script.js:545-548 | the reason of a failed response with `errors` lists each message in order separated by ", ", a missing message as nothing, and is empty for an empty array |
| `Submission.Submit` | assets/js/script.js:558-568 | a submit in flight does nothing; otherwise every field is validated and shown; exactly a valid form sets the flag and the loading state and sends a request; one default and one shown verdict per field stays so |
| `Submission.Complete` | assets/js/script.js:591-613 | success resets the fields to their defaults and clears every field error; failure keeps what was typed and shows the error line; both end at rest and keep one default and one shown verdict per field |
| `Submission.ErrorLineIgnoresReason` | assets/js/script.js:599-609 | the error line is the same whatever reason the request failed with |
| `Submission.RetryAfterFailure` | assets/js/script.js:611-612 | after a failure the same valid fields can be submitted again |
| `Submission.OneRequestPerSubmission` | assets/js/script.js:561-568 | however often submit is pressed with nothing settling, at most one request goes out, and exactly one from a valid form at rest |
| `Submission.NothingWhileSubmitting` | assets/js/script.js:561 | while a request is pending, submits change nothing and send nothing |
| `Portfolio.Categories` | assets/js/script.js:772 | the category list is the white-space-free words of the attribute, in order, and nothing else |
| `Portfolio.VisibleCount` | assets/js/script.js:975-977 | counts the shown cards of a grid: all of them exactly when every card is shown, none exactly when every card is hidden |
| `Portfolio.VisibleCountAppend` | assets/js/script.js:975-977 | the counts of two parts of a grid add up to the count of the whole, which with the bounds fixes every count |
| `Portfolio.Sizing` | assets/js/script.js:964-979 | a grid is compact exactly when at most two of its cards are shown |
| `Portfolio.Click` | assets/js/script.js:764-780 | the clicked button alone is active; each card is shown exactly when the filter selects it; the current script recomputes compactness from the new visibility, the legacy one (script.js:576-589) keeps it |
| `Portfolio.Load` | assets/js/script.js:1057-1059 | on load the first filter button is clicked when there is one |
| `Portfolio.AllShowsEverything` | assets/js/script.js:773 | the `all` filter shows every card, so every grid is compact exactly when it holds at most two cards |
| `Portfolio.CurrentFilterIsOneWord` | assets/js/script.js:772-773 | apart from `all`, the current script only shows cards for a non-empty filter without white space |
| `Portfolio.SingleCategoryAgrees` | script.js:585 | on a card with one category the two scripts show the same cards for every filter |
| `Portfolio.TwoCategories` | assets/js/script.js:772-773 | a card in two categories shows under either one in the current script and under neither in the legacy one (script.js:585) |
| `Portfolio.MissingFilter` | script.js:585 | a button without a filter shows nothing in the current script but, in the legacy one, exactly the cards without a category |
| `Scroll.OnScroll` | assets/js/script.js:210-214 | the header is marked from ten pixels down, inclusive, and the back-to-top button (lines 623-629) from beyond three hundred |
| `Scroll.BackToTopImpliesScrolled` | assets/js/script.js:623-629 | the back-to-top button never shows while the header is unmarked |
| `Scroll.OnScrollMonotone` | assets/js/script.js:210-214 | scrolling further down never removes either class |
| `Fuzzy.Jaccard` | assets/js/script.js:1421-1422 | the character-set ratio lies in [0, 1], is 1 exactly for equal character sets and 0 exactly for disjoint ones |
| `Fuzzy.Closeness` | assets/js/script.js:1423 | the length factor lies in [0, 1] and is 1 exactly for equal lengths in UTF-16 code units |
| `Fuzzy.Score` | assets/js/script.js:1418-1425 | the score lies in [0, 1], is 1 for equal strings and 0 for lengths too far apart |
| `Fuzzy.ScoreFromCounts` | assets/js/script.js:1421-1424 | the score of two strings within the length bound from the sizes of their character sets and their intersection |
| `Fuzzy.ScoreOneIff` | assets/js/script.js:1418-1425 | a perfect score means equal strings or the same characters at the same length |
| `Fuzzy.DisjointScoresLow` | assets/js/script.js:1418-1425 | strings without a common character score at most 0.3, below the threshold |
| `Fuzzy.ScoreAsymmetric` | assets/js/script.js:1420 | the rejection bound depends on the second string only: strings of four and ten code units over the same characters score above 0 one way round and 0 the other |
| `Fuzzy.EmojiCountsTwice` | assets/js/script.js:1420-1423 | a character beyond U+FFFF adds two to `length`, so "thanks😊" is eight long |
| `ChatBot.MentionsIff` | assets/js/script.js:1395 | a list is mentioned exactly when one of its phrases occurs in the text |
| `ChatBot.FirstHit` | assets/js/script.js:1394-1398 | the index found is the first list, in order, that the text mentions, and none is found exactly when no list is mentioned |
| `ChatBot.Tokens` | assets/js/script.js:1401 | the tokens are the separator-free words of the text, in order, and nothing else |
| `ChatBot.Candidates` | assets/js/script.js:1402-1404 | the fuzzy pass visits exactly the (token, keyword, category) triples of the message and the table |
| `ChatBot.ArgMax` | assets/js/script.js:1400-1407 | the running best is at least every candidate's score; it changes exactly when some candidate beats the start, and then it records the first candidate of maximal score |
| `ChatBot.FuzzyPass` | assets/js/script.js:1400-1408 | the fuzzy pass fires exactly when some candidate scores above 0.55, naming the category of a best-scoring candidate |
| `ChatBot.FuzzyPassFirstBest` | assets/js/script.js:1400-1407 | of several best-scoring candidates, the category named is that of the first one visited |
| `ChatBot.FirstBestUnique` | assets/js/script.js:1405 | only one candidate is the first of the highest score, so ties are broken one way |
| `ChatBot.Classify` | assets/js/script.js:1391-1416 | a keyword occurring in the lower-cased text selects the first category that has one; a category answers exactly when a keyword occurs or the fuzzy pass fires, and without a keyword it is the fuzzy pass's category; the default answers exactly when no pass fires |
| `ChatBot.SupportKeywordGoesToContact` | assets/js/script.js:1210-1221 | "support" in any letter case is answered by `contact` or an earlier category, never by `support` |
| `ChatBot.ClassifyIgnoresCase` | assets/js/script.js:1392 | lower-casing the message first changes nothing |
| `ChatBot.TableShape` | assets/js/script.js:1197-1244 | the table has eleven categories, each with keywords, none empty |
| `ChatBot.ClassifySmallTalkFirst` | assets/js/script.js:1408-1415 | with small talk tried before the fuzzy pass, a keyword still answers first, and otherwise a mentioned small-talk phrase is answered as small talk |
| `ChatBot.ThanksStackScore` | assets/js/script.js:1418-1425 | "thanks" scores 0.65 against the keyword "stack" |
| `ChatBot.ThanksShadowedByFuzzy` | assets/js/script.js:1408-1410 | "thanks" mentions the thanks phrase, yet the code answers it with a category |
| `ChatBot.SendMessage` | assets/js/script.js:1315-1333 | a blank input is ignored; otherwise the input is cleared and the trimmed text and the reply to it are appended, in that order |
| `Text.Trim` | assets/js/script.js:427 | the result is the slice of the input left between white-space-only edges, and starts and ends with a non-space |
| `Text.TrimEmptyIff` | assets/js/script.js:427 | a value trims to nothing exactly when it is all white space |
| `Text.Split` | assets/js/script.js:772 | the pieces are separator-free words whose concatenation is the input without its separators |
| `Text.SplitLeadingWord` | assets/js/script.js:772 | a word followed by a separator splits off as the first piece |
| `Text.SplitSkipsSeparator` | assets/js/script.js:772 | a leading separator yields no piece, so the pieces are the maximal runs of non-separators |
| `Text.SplitWord` | assets/js/script.js:772 | a word without separators is a single piece |
| `Text.Join` | assets/js/script.js:547 | the first part, then every later part preceded by the separator; the length is the parts' total plus one separator between each two |
| `Text.Units` | assets/js/script.js:456 | `length` counts UTF-16 code units: between one and two per character, and one per character exactly when none lies beyond U+FFFF |
| `Text.ContainsIff` | assets/js/script.js:1395 | `includes` holds exactly when the keyword occurs at some offset |

## Left out

- The 3D model viewer, the FAQ accordion, the video player, lazy images, counters,
  analytics and the mobile menu: not part of the modelled core.
- Scroll-spy (`updateActiveNavLink`) and `isElementVisible`: floating-point geometry
  over bounding boxes.
- `debounce`, every `setTimeout` delay and the interval periods: there is no clock. The
  chat's typing delay is left out, so the model does not show replies arriving out of
  order after quick successive messages.
- `fetch`, JSON parsing and `FormData`: the reply is a parameter (`Submission.Reply`).
  The legacy `submitFormData` resolves at random; its outcome is a parameter as well.
- The legacy error line is a new element appended on every failure and removed after
  five seconds; it is modelled as one error banner.
- The portfolio quick-view modal, `handleQuickAction`, and opening, closing and toggling
  the chat window: markup plumbing without logic worth a contract.
- Missing DOM elements, for example an absent `#name-error`: every element is assumed
  present.
- Inherited object keys such as `validationRules["toString"]`: the rule table is a map
  with exactly the five keys.
- `Carousel.JsRem`: indexes read with `Number(...)` or `parseInt(...)` are integers or
  NaN; non-integer numbers such as 1.5 are not modelled.
- `Carousel.Step`: a dot click carries an integer `data-slide`; the non-numeric case,
  where `Number(...)` gives NaN and the handler throws after blanking the carousel, is
  `Carousel.DotClickAsWritten` and is kept out of the event sequences of
  `Carousel.AtMostOneInterval`.
- `Text.AsciiLower`: stands for `toLowerCase` on ASCII letters only. Other scripts' case
  mappings are not modelled; Arabic has no case.
- `Text.Trim`: indexing is over code points, not UTF-16 code units; no white-space
  character lies beyond U+FFFF, so the trimmed text is the same.
- `Fuzzy.Score`: computed over exact rationals; IEEE-754 rounding is not modelled.
- `ChatBot.SupportKeywordGoesToContact`: a concrete run on the message "support" is not
  shown; the lemma covers every message that contains it.
- `ChatBot.CategoryReply`: characters of the replies (mostly emoji) lost in the script's
  own double encoding are written as U+FFFD.

## Findings

| source | as written | input that shows it | evidently intended | confidence | as-written member | corrected member |
|---|---|---|---|---|---|---|
| assets/js/script.js:251-254 | `(current + 1) % length` is NaN when there are no testimonials, and NaN passes the `index < 0 \|\| index >= length` guard, so `testimonials[NaN].classList` throws | a page without testimonials: rotation is started unconditionally at line 1047, and every tick throws | with no testimonials a tick does nothing | high (not executed) | `Carousel.NextWithoutTestimonialsThrows` (on `Carousel.NextAsWritten`) | `Carousel.Next` |
| assets/js/script.js:1408-1410 | the fuzzy pass runs before the small-talk phrases, and a short word can score above 0.55 against an unrelated keyword | the message "thanks": it mentions the thanks phrase, but its token scores 0.65 against "stack", so a category reply is given | small-talk phrases are answered as small talk when no keyword occurs | medium (not executed) | `ChatBot.ThanksShadowedByFuzzy` (on `ChatBot.Classify`) | `ChatBot.ClassifySmallTalkFirst` |
