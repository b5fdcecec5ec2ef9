# A Dafny model of beast2's scanners and the burl client

The project models the parts of the repository with the most state and branching and proves what
they are meant to do, for all inputs and all runs:

- **URL globbing** (`Generators`, `Cartesian`, `Globbing`, `EndlessGlobs`, `Interpolation`,
  `RequestGenerator`): a pattern is a list of choice generators; a closure walks them with an explicit
  stack of frames and a token stack. It enumerates the Cartesian product, rightmost generator fastest,
  and the request generator strings the expansions of all URL arguments together. A generator may go on
  for ever; the walk is then described by views that know only the beginning of a column, and it is
  settled exactly which calls return.
- **The format-string scanner** (`Format`): `{}`, `{{` and `}}`, scanned by a cursor from two outer
  loops, refines "cut into pieces, then fill".
- **Asynchronous protocols as step systems**: the `Expect: 100-continue` race (`Expect100`, section
  10.1.1 of RFC 9110) and the bounded task group (`TaskGroup`). A run is any sequence of labels; a
  label that is not enabled has no effect, so quantifying over label sequences covers every
  interleaving. The classes `RequestOp` and `Group` hold the source's fields, and each handler is
  proved to do one step.
- **The redirect and retry loops** (`Redirect`, `Retry`; section 15.4.4 of RFC 9110): the network is
  an arbitrary sequence of answers.
- **The cookie jar** (`CookieJar`, `SetCookie`, `NetscapeFile`; sections 5.1.3, 5.3 and 5.4 of RFC
  6265): the list mutated in place is characterised by the history of operations, and file printer
  and parser are inverse.
- **Route parameters** (`RouteParam`) and **quoted strings** (`QuotedString`, section 5.6.4 of RFC
  9110): cursor parsers with a printing inverse.
- **Arithmetic state**: the sliding rate window (`ProgressMeter`) and the byte budget (`RateLimit`),
  with fixed-width wrap-around written out.

`Basics`, `Wrappers`, `Decimal` and `Euclid` are small helpers. `dafny verify dfyconfig.toml` checks everything.

## Findings

Properties one would expect that the code does not have, each with the condition under which it does:

- A numeric glob range gives its progression only if the value that ends the counting fits the
  counter's type; `[w-z:10]` wraps to a negative `char` and goes on (`EmitsIntendedIff`,
  `CharCounterWraps`). A zero step never ends (`ZeroStepNeverEnds`). Which ranges never end has a closed
  form in bounds, step and type (`EndlessIff`): `[w-z:10]` ends after all, the full 64-bit range never
  does (`WrapsAndStillEnds`, `FullRangeNeverEnds`).
- A call of the glob closure returns if and only if no generator that never ends is followed by one that
  gives nothing, unless an earlier one gives nothing, all of which bounds, steps and types decide; on
  `[0-1:0]{}` the first call never returns (`FirstCallReturnsIff`, `ZeroStepBeforeEmptySet`).
- A task group can hold more slots than `max_` without any slot carrying an error: `close()` over live
  slots does that, and nothing else does (`ExcessMeansErrorOrClosed`, `ClosingLeavesExcess`).
- Removing all slots after `close()` and running what is queued need not finish every join: an admission
  that ends with `closed` hands out a slot too (`ClosedAdmissionHoldsUpJoin`). Running the queued
  handlers finishes every join in every order if and only if all joins are done already, or all
  admissions are done and no slot is live (`OneDrainFinishesJoinsIff`); after `close()` a drain brings
  that about for the admissions (`ClosingFinishesAdmissions`).
- `path_match` looks at an index counted from the wrong end. It differs from section 5.1.4 of RFC
  6265 in both directions and on the empty path (`PathMatchDiffersFromStandard`), and a cookie without a path is not always
  sent back to the URL that set it (`ReturnsToItsOwnUrlIff`, `NotAlwaysReturned`).
- Reading a cookie file appends without looking at keys, so keys can repeat, as when a file is read twice;
  they are unique if and only if no such duplicate is still there (`KeysAreUniqueIff`,
  `LoadingTwiceDuplicates`).
- A later `Expires` overrides `Max-Age`, which section 5.3 of RFC 6265 gives precedence: the code differs
  exactly when both are present, the last of the two is an `Expires`, and their times differ
  (`ExpiryIsStandardIff`, `LaterExpiresWins`).
- Lowering a stream's limit below what an operation in flight was offered lets the budget underflow
  (`UnderflowIffCareless`, `UnderflowExample`).
- The quoted-string scanner reads past the end of its input exactly when there is no unescaped
  closing quote (`ScanQuoted`), as on `"ab` and `"ab\` (`UnterminatedIsOverread`).
- The cookie file format represents a domain that starts with `#` if the cookie is HTTP-only, and
  does not represent an empty or absent value (`FileRoundTripIff`). A jar with such a cookie, set as
  `a=`, prints but throws when it is read back (`EmptyValueDoesNotReload`, `ReloadThrowsIff`).
- The rate shown is unchanged by an idle update at the same instant in the first second too
  (`IdleUpdateKeepsRate`).

## Model

| member | source | states |
|---|---|---|
| Generators.PullTakesFirstChoice | example/client/burl/glob.cpp:25-75 | each call of a finite generator hands out the first remaining choice, and after the last one nothing for ever |
| Generators.ChoicesAreTheProgression | example/client/burl/glob.cpp:25-54 | the choices of a range are low, low + step, ... up to high, in padded decimal or as characters, and no others |
| Generators.PaddingKeepsNumber | example/client/burl/glob.cpp:37-40 | padding to the width of the lower bound keeps the number |
| Generators.TextsOfRange | example/client/burl/glob.cpp:32-54 | the i-th text of a numeric range has the value low + i*step and the pattern's width or more, with no other zeros in front; that of a character range is that character |
| Generators.PullGivesNumber | example/client/burl/glob.cpp:32-41 | what a call of any numeric range gives, wrapping ones included |
| Generators.PullGivesCharacter | example/client/burl/glob.cpp:44-54 | what a call of any character range gives |
| Generators.FreshChoices | example/client/burl/glob.cpp:57-75 | a set gives its items in order, a static text itself, once |
| Generators.EmitsIntendedIff | example/client/burl/glob.cpp:32-53 | a range with positive step gives its progression and stops if and only if the value that ends the counting fits the integer type |
| Generators.ZeroStepNeverEnds | example/client/burl/glob.cpp:32-41 | a zero step over a non-empty range never comes to an end |
| Generators.CharCounterWraps | example/client/burl/glob.cpp:44-54 | `[w-z:10]` wraps around and does not stop after its progression |
| Cartesian.ProductSize | example/client/burl/glob.cpp:176-212 | the number of results is the product of the numbers of choices |
| Cartesian.ProductAtRank | example/client/burl/glob.cpp:185-202 | the result at a pick's rank is the concatenation of the chosen texts, with their tokens |
| Cartesian.TokensAre | example/client/burl/glob.cpp:190-197 | the tokens are the choices of the generators that are not static: as many as there are such generators, each after as many as such generators come before it |
| Cartesian.ProductIsSpelledOut | example/client/burl/glob.cpp:185-202 | text and tokens of every result, choice by choice |
| Cartesian.RankIsLexicographic | example/client/burl/glob.cpp:181-210 | results come in lexicographic order of the picks, rightmost fastest |
| Cartesian.EveryPositionIsAPick | example/client/burl/glob.cpp:181-210 | every result comes from a pick of one choice per generator |
| Cartesian.PushStep | example/client/burl/glob.cpp:196-201 | pushing a frame with the copied suffix keeps what is still to be produced and does some of the remaining work |
| Cartesian.YieldStep | example/client/burl/glob.cpp:187-194 | a choice of the last generator is the first of what was to be produced |
| Cartesian.PopStep | example/client/burl/glob.cpp:203-209 | popping an exhausted frame and its token keeps what is still to be produced |
| Generators.EndlessIff | example/client/burl/glob.cpp:25-75 | a generator never ends if and only if it is a range with low not above high and the largest value of the type congruent to low modulo the greatest common divisor of step and type size is not above high; sets and static texts always end |
| Generators.WrapsAndStillEnds | example/client/burl/glob.cpp:44-54 | `[w-z:10]` wraps around and comes to an end all the same |
| Generators.FullRangeNeverEnds | example/client/burl/glob.cpp:32-41 | `[0-18446744073709551615]` never ends, though its step is one |
| Generators.EndlessGoesOn | example/client/burl/glob.cpp:32-54 | a generator that never ends has a text to give, and never ends afterwards |
| Globbing.MakeGenerator | example/client/burl/glob.cpp:176-179 | a fresh closure has the product of its generators before it, whatever part of what they give is looked at; all of it when they stop |
| Globbing.MakeOneShot | example/client/burl/options.cpp:779-788 | with globbing off the URL itself is pending, once, without tokens |
| Globbing.Call | example/client/burl/glob.cpp:178-212 | one call, of generators that stop or go on for ever, terminates, gives the first remaining result of any view with a choice to spare and leaves the rest, or gives nothing when nothing remains |
| Globbing.StepSupplies | example/client/burl/glob.cpp:181-210 | a call uses up at most one choice of each generator that never ends |
| Globbing.TakeTurn | example/client/burl/glob.cpp:183-209 | one turn of the loop is one step of the walk |
| Globbing.CallFinite | example/client/burl/glob.cpp:178-212 | when every generator stops, a call gives the first pending result and leaves the rest |
| Globbing.ExpandAll | example/client/burl/glob.cpp:176-212 | calling until nothing comes collects exactly the product, in order, with text and tokens spelled out |
| EndlessGlobs.FirstResults | example/client/burl/glob.cpp:176-212 | with generators that go on for ever too, the first n calls give the first n members of the product in which such generators are cut off after n texts, with text and tokens spelled out |
| EndlessGlobs.NeverRunsOut | example/client/burl/glob.cpp:181-210 | with a generator that never ends and none that gives nothing, there is a result for every call |
| EndlessGlobs.StepKeepsReady | example/client/burl/glob.cpp:183-209 | after any turn no frame is without generators and there is a token for each non-static generator below the top, so `front` and `pop_back` are always called on something |
| EndlessGlobs.FirstCallReturnsIff | example/client/burl/glob.cpp:181-211 | the first call returns if and only if, judged by bounds, steps and types, no reached generator that never ends is followed by one that gives nothing |
| EndlessGlobs.ZeroStepBeforeEmptySet | example/client/burl/glob.cpp:181-211 | on `[0-1:0]{}` the first call never returns |
| Interpolation.Interpolate | example/client/burl/glob.cpp:215-260 | interpolation fills the pieces of the format and throws only for a reference beyond `unsigned long` |
| Interpolation.IdentityWithoutMatches | example/client/burl/glob.cpp:228-259 | a format none of whose references names a token is returned unchanged |
| Interpolation.ReferenceIsReplaced | example/client/burl/glob.cpp:238-251 | `#k` in any context becomes the k-th token and nothing else changes |
| Interpolation.ReferenceStays | example/client/burl/glob.cpp:248-251 | `#k` that names no token stays in any context |
| Interpolation.LargeReferenceThrows | example/client/burl/glob.cpp:240 | a reference of 2^64 or more throws in any context |
| Interpolation.SplitAtHash | example/client/burl/glob.cpp:218-224 | the grammar cuts a format independently on both sides of a hash |
| RequestGenerator.ReverseUndoesStack | example/client/burl/options.cpp:822-823 | popping the reversed list from the back is going through the arguments in order |
| RequestGenerator.RequestOptGen.constructor | example/client/burl/options.cpp:822-823 | all expansions of all URL arguments, as far as they are looked at, are pending in command-line order |
| RequestGenerator.Turn | example/client/burl/options.cpp:827-840 | one turn of the loop, with generators that stop or go on for ever, gives the first pending transfer or drops an exhausted argument |
| RequestGenerator.RequestOptGen.Next | example/client/burl/options.cpp:823-841 | each call, with generators that stop or go on for ever, gives the next expansion with the output name made from its own tokens |
| RequestGenerator.FirstTransfers | example/client/burl/main.cpp:803-829 | for every command line on which calls return, and every n: the j-th of the loop's first n transfers has the text of the j-th expansion as URL and its argument's output name with that expansion's tokens, up to the first name that throws |
| RequestGenerator.TransfersMeet | example/client/burl/options.cpp:827-840 | URL, output name, input and naming of a transfer by its expansion |
| RequestGenerator.DrainAll | example/client/burl/main.cpp:803-829 | when all generators stop, the loop makes the transfers of all expansions in order, field by field, up to the first output name that throws |
| Format.ErrorIff | include/boost/beast2/format.hpp:47-142 | formatting throws exactly when a brace is malformed or the holes before it outnumber the arguments, and which exception it is |
| Format.OutputIsFilled | include/boost/beast2/format.hpp:110-142 | without an exception the output is the unescaped literals with the arguments in order, surplus arguments ignored |
| Format.OutputIsFlushed | include/boost/beast2/format.hpp:110-142 | with an exception the output is the expansion of the pieces up to the last brace pair before the failure |
| Format.FailureWritesAPrefix | include/boost/beast2/format.hpp:110-142 | what is written before an exception is what formatting some prefix of the format string gives, without an exception |
| Format.EscapeRoundTrip | include/boost/beast2/format.hpp:53-96 | formatting a text with doubled braces gives the text, whatever the arguments |
| Format.EscapeAroundArgument | include/boost/beast2/format.hpp:53-96 | an argument between two escaped texts gives text, argument, text |
| Format.TemplateIsWoven | include/boost/beast2/format.hpp:47-142 | any number of arguments between escaped texts come out between the texts, in order |
| Format.TemplateError | include/boost/beast2/format.hpp:47-142 | with more placeholders than arguments that is reported; otherwise what follows decides, with the arguments left |
| Format.UnmatchedBraces | include/boost/beast2/format.hpp:53-96 | which brace is unmatched when |
| Format.ScannedMeans | include/boost/beast2/format.hpp:47-108 | what `next` has seen is one step of the piecewise reading; an empty segment without placeholder comes only at the end |
| Format.FormatImpl.Next | include/boost/beast2/format.hpp:47-108 | the scan stops at the first brace pair, at the end, or at a brace nothing completes |
| Format.FormatImpl.DoArg | include/boost/beast2/format.hpp:110-123 | one argument is written at the next placeholder and the rest of the format is left as specified |
| Format.FormatImpl.Apply | include/boost/beast2/format.hpp:125-142 | the stream gets exactly what the specification says, with its exception |
| Format.FormatTo | include/boost/beast2/format.hpp:203-212 | error and appended text in terms of the parsed pieces |
| TaskGroup.NoLostWakeup | example/client/burl/task_group.hpp:119-125 | in every reachable state a parked admission faces an open full group and a parked join a live slot, and neither was cancelled |
| TaskGroup.AdaptQueueDrains | example/client/burl/task_group.hpp:180-207 | running an admission handler takes it off the queue and queues nothing |
| TaskGroup.JoinQueueDrains | example/client/burl/task_group.hpp:217-241 | running a join handler takes it off the queue and queues nothing |
| TaskGroup.DrainingIsExact | example/client/burl/task_group.hpp:180-241 | running queued handlers, in any order, shortens the queue by one each and so empties it in exactly its length |
| TaskGroup.DrainingGoesOn | example/client/burl/task_group.hpp:180-241 | while the queue is not empty some handler can run |
| TaskGroup.NobodyIsForgotten | example/client/burl/task_group.hpp:142-241 | once the queue is empty an unfinished admission means an open full group, an unfinished join a live slot |
| TaskGroup.DrainingServesEverybody | example/client/burl/task_group.hpp:142-241 | from every reachable state, once as many handlers ran as were queued, in any order, every operation is done that does not wait for room or a live slot |
| TaskGroup.ClosingFinishesAdmissions | example/client/burl/task_group.hpp:119-125 | after close a drained queue has finished every admission |
| TaskGroup.RemovingFinishesJoins | example/client/burl/task_group.hpp:217-241 | with all admissions finished and all slots removed a drained queue has finished every join |
| TaskGroup.OneDrainFinishesJoinsIff | example/client/burl/task_group.hpp:142-241 | from a reachable state every order of the queued handlers finishes every join if and only if all joins are done already, or all admissions are done and no slot is live |
| TaskGroup.ClosedAdmissionHoldsUpJoin | example/client/burl/task_group.hpp:187-206 | an admission that ends with closed hands out a slot and sends a join back to waiting |
| TaskGroup.WindingDownIsReachable | example/client/burl/task_group.hpp:119-125 | the state in which that happens is reached by a run |
| TaskGroup.CancelledJoinSignals | example/client/burl/task_group.hpp:225-229 | a cancelled join signals every live slot, once |
| TaskGroup.NeverTooManySlots | example/client/burl/task_group.hpp:193-206 | over every run error-free live slots never exceed the initial maximum |
| TaskGroup.ExcessMeansErrorOrClosed | example/client/burl/task_group.hpp:119-125 | without an error slot there are more slots than `max_` exactly when the group was closed over live slots |
| TaskGroup.ClosingLeavesExcess | example/client/burl/task_group.hpp:119-125 | a run that exceeds `max_` without an error slot |
| TaskGroup.OutcomesSurvive | example/client/burl/task_group.hpp:187-206 | an admission open at close ends with closed, one open when cancelled never ends without an error, across the immediate hop and everything else |
| TaskGroup.NoAdmissionAfterClose | example/client/burl/task_group.hpp:119-125 | after close no error-free slot is added and every new slot says closed |
| TaskGroup.AdmissionHandsOutSlot | example/client/burl/task_group.hpp:196-206 | an admission completes with a slot carrying its outcome, error-free only if there was room |
| TaskGroup.AdmissionOutcome | example/client/burl/task_group.hpp:187-206 | over every run, by its labels: an admission whose handler runs ends with closed after a close, else with cancelled after a cancellation, else without an error if there is room, and else waits |
| TaskGroup.AdmissionRuns | example/client/burl/task_group.hpp:187-206 | the same for every state, as equivalences, and the slot handed out |
| TaskGroup.AdmissionStarts | example/client/burl/task_group.hpp:180-204 | a new admission waits exactly before an open full group and never completes at once |
| TaskGroup.JoinCompletesIff | example/client/burl/task_group.hpp:230-240 | a join whose handler runs completes exactly if no slot is live |
| TaskGroup.JoinStarts | example/client/burl/task_group.hpp:217-239 | a new join waits exactly if a slot is live and never completes at once |
| TaskGroup.JoinWaitsForAll | example/client/burl/task_group.hpp:230-240 | a join completes only without live slots |
| TaskGroup.Group.CloseGroup | example/client/burl/task_group.hpp:119-125 | close sets the maximum to zero and wakes all waiters |
| TaskGroup.Group.EraseSlot | example/client/burl/task_group.hpp:160-167 | the remover erases its slot and wakes all waiters |
| TaskGroup.Group.AdaptHandler | example/client/burl/task_group.hpp:180-207 | the handler parks, hops or completes as the step system says |
| TaskGroup.Group.JoinHandler | example/client/burl/task_group.hpp:217-241 | the handler emits a cancellation and parks, hops or completes as the step system says |
| TaskGroup.Group.Emit | example/client/burl/task_group.hpp:127-132 | every live slot is signalled |
| Expect100.BodyStartsOnceUnlessRefused | example/client/burl/request.hpp:96-108 | in every run the body write starts at most once, when the timer branch runs, unless a final status or read error was handled before |
| Expect100.RaceEndsComplete | example/client/burl/request.hpp:109-134 | a race ends only after both branches; a received 100 led to the body write and one more header read |
| Expect100.RaceResult | example/client/burl/request.hpp:138-149 | the error is that of the body write, else that of the last read |
| Expect100.CompletedCode | example/client/burl/request.hpp:75-149 | over every run, by what was reported to it: the code is that of the failed first write, or of the plain header read; after a race that of the body write if it failed, else of the second header read, else of the first |
| Expect100.NeverStuck | example/client/burl/request.hpp:71-135 | an uncompleted operation can always move on, and after a reply without waiting for the timer |
| Expect100.RunsAreShort | example/client/burl/request.hpp:71-135 | no run has more than eight effective steps |
| Expect100.RequestOp.OnTimer | example/client/burl/request.hpp:97-108 | the timer branch as one step |
| Expect100.RequestOp.OnHeader | example/client/burl/request.hpp:109-132 | the read branch as one step |
| Expect100.RequestOp.OnGroupDone | example/client/burl/request.hpp:138-149 | the completion of the group as one step |
| Redirect.IsRedirect | example/client/burl/main.cpp:81-101 | which statuses redirect, and which change the method under which flag |
| Redirect.MethodFollowsStatus | example/client/burl/main.cpp:545-554 | a request goes out as GET without body and content fields exactly after a 301, 302 or 303 whose flag is unset, unless it is HEAD; otherwise method, body and content fields are the first request's |
| Redirect.CookieFieldOf | example/client/burl/main.cpp:467-478 | the cookie field of every request of a run |
| Redirect.RequestLineOf | example/client/burl/main.cpp:556-573 | target, host, connection and referer of every request after a redirect |
| Redirect.AuthorizationOf | example/client/burl/main.cpp:558-562 | the first request as it was made, and the authorization of every request of a run |
| Redirect.EndsWhen | example/client/burl/main.cpp:521-543 | when the loop goes on, on the same connection or another, and when connecting ends it |
| Redirect.FinalWhen | example/client/burl/main.cpp:509-516 | when an answer is final, and when a request or a Set-Cookie field ends the loop |
| Redirect.GivesUpWhen | example/client/burl/main.cpp:518-526 | when a redirect is not followed, and why |
| Redirect.ChangeMethod | example/client/burl/main.cpp:545-554 | a method change leaves a non-HEAD request as GET without body and content headers, and touches nothing else |
| Redirect.Prepare | example/client/burl/main.cpp:545-573 | the next request in terms of the previous one |
| Redirect.SetCookies | example/client/burl/main.cpp:467-478 | the cookie field is the jar's text and, when trusted, the explicit cookies |
| Redirect.AfterAnswer | example/client/burl/main.cpp:512-543 | an answer ends the loop or leaves a connection to the next URL's origin at a message boundary |
| Redirect.PromisedNext | example/client/burl/main.cpp:521-573 | the closed form of the k-th request is kept from one request to the next |
| Redirect.FollowRedirects | example/client/burl/main.cpp:480-574 | every request of every run: connection to its origin at a boundary, method, body, target, host, referer, cookies and authorization in closed form; at most maxredirs + 1 of them; how the loop ends, a malformed Set-Cookie included |
| Redirect.FirstEndDecides | example/client/burl/main.cpp:497-543 | the end of a run is determined by the first answer that ends it |
| Redirect.CredentialsStayHome | example/client/burl/main.cpp:558-562 | authorization only while all URLs share the first origin, explicit cookies only there, no body after a method change |
| Retry.BackoffStep | example/client/burl/main.cpp:656-663 | the k-th wait is min(2^k, 1024) seconds |
| Retry.CanRetry | example/client/burl/main.cpp:665-683 | when a failure may be retried |
| Retry.RetryableIs | example/client/burl/main.cpp:103-118 | which statuses and error codes allow another attempt |
| Retry.EndingIs | example/client/burl/main.cpp:690-722 | how a transfer ends that is not repeated |
| Retry.JudgedBy | example/client/burl/main.cpp:357-424 | what an attempt is judged by; a refused connection by its own code |
| Retry.Judge | example/client/burl/main.cpp:684-721 | another attempt exactly after a retryable result with retries left, and otherwise whether the result is returned or rethrown |
| Retry.Perform | example/client/burl/main.cpp:357-574 | the result of an attempt: an early failure, or that of the redirect loop and what follows it |
| Retry.RunWithRetries | example/client/burl/main.cpp:644-730 | exchanges at most (retries + 1)(maxredirs + 1), the counter never underflows, every wait, each attempt's result, exactly the retryable attempts are repeated while retries are left, and whether the last result is returned or rethrown or a wait was aborted |
| CookieJar.TailMatchMeans | example/client/burl/cookie.cpp:65-86 | tail matching accepts the domain, less a leading dot, and its subdomains only |
| CookieJar.DomainMatchMeans | example/client/burl/cookie.cpp:65-86 | with or without a leading dot a domain means the same |
| CookieJar.PathMatchVersusStandard | example/client/burl/cookie.cpp:88-106 | exactly when the coded path test agrees with the standard's, on every path and the empty one |
| CookieJar.PathMatchDiffersFromStandard | example/client/burl/cookie.cpp:102 | inputs on which it rejects and accepts wrongly, the empty path among them |
| CookieJar.ReturnsToItsOwnUrlIff | example/client/burl/cookie.cpp:309-321 | exactly when a cookie without a path is sent back to the URL that set it |
| CookieJar.NotAlwaysReturned | example/client/burl/cookie.cpp:102 | a URL that does not get its own cookie back |
| CookieJar.MakeDefaultPath | example/client/burl/cookie.cpp:309-321 | the default path is all segments but the last, or the root |
| CookieJar.Jar.AddCookie | example/client/burl/cookie.cpp:284-342 | adding removes the key and appends unless expired; an insecure origin's secure cookie is ignored |
| CookieJar.AdditionLeaves | example/client/burl/cookie.cpp:284-342 | in fields and times: an accepted cookie comes last, completed, unless it has expired; of the others exactly those stay that differ in name, domain or path |
| CookieJar.RefusalLeaves | example/client/burl/cookie.cpp:323-324 | a secure cookie from an insecure URL changes nothing |
| CookieJar.DefaultPathIsDirectory | example/client/burl/cookie.cpp:309-321 | without a path a cookie gets the URL's path up to its last slash |
| CookieJar.AddedIsSentWhere | example/client/burl/cookie.cpp:284-375 | an added cookie is sent to its domain and subdomains, or to its own host if it named none, while unexpired, over https if secure, on matching paths |
| CookieJar.RenderedOneMore | example/client/burl/cookie.cpp:363-369 | the text a cookie adds to the field |
| CookieJar.Jar.MakeCookieField | example/client/burl/cookie.cpp:344-375 | exactly the expired cookies are dropped and exactly the matching ones rendered, in order |
| CookieJar.Jar.ClearSessionCookies | example/client/burl/cookie.cpp:377-386 | exactly the cookies without expiry are dropped |
| CookieJar.JarIsItsHistory | example/client/burl/cookie.cpp:284-429 | after any history of additions, lookups, clearings and file readings the jar holds exactly the cookies put in that nothing removed since, in order |
| CookieJar.KeysAreUniqueIff | example/client/burl/cookie.cpp:326-341 | name, domain and path are unique in the jar if and only if no file brought a cookie with the key of one before it, both still there |
| CookieJar.KeysAreUnique | example/client/burl/cookie.cpp:326-341 | without files keys are always unique |
| CookieJar.LoadingTwiceDuplicates | example/client/burl/cookie.cpp:414-429 | a file read twice leaves each cookie there twice |
| CookieJar.CookiesHaveKeys | example/client/burl/cookie.cpp:309-321 | every cookie in the jar has a domain and a path |
| CookieJar.Jar.PushBack | example/client/burl/cookie.cpp:426 | a cookie read from a file is appended and removes nothing |
| CookieJar.SelectedMeans | example/client/burl/cookie.cpp:361-370 | a cookie is emitted if and only if it is in the jar, unexpired and matches |
| CookieJar.FieldDropsExactlyExpired | example/client/burl/cookie.cpp:344-375 | after a lookup a cookie is in the jar if and only if it was there and has not expired |
| CookieJar.ClearDropsExactlySession | example/client/burl/cookie.cpp:377-386 | after clearing a cookie is in the jar if and only if it was there and has an expiry |
| CookieJar.FieldIsRepeatable | example/client/burl/cookie.cpp:344-375 | asking again at the same time gives the same field and changes nothing |
| SetCookie.ParseCookie | example/client/burl/cookie.cpp:197-281 | the attribute loop and the prefix rules, with their errors |
| SetCookie.LastAttributeCounts | example/client/burl/cookie.cpp:201-259 | each field has the value of the last attribute of its name, whatever its case; the expiry that of the last among Expires and Max-Age |
| SetCookie.KindIsTheName | example/client/burl/cookie.cpp:206-258 | an attribute is of a kind if and only if it has that kind's name, for all eight names, so the order of comparison does not matter |
| SetCookie.AcceptedIff | example/client/burl/cookie.cpp:197-281 | a header is accepted exactly if no attribute has a fault and the rules of both name prefixes hold |
| SetCookie.IsMeans | example/client/burl/cookie.cpp:206-258 | names and values are compared up to the case of ASCII letters |
| SetCookie.SameSiteIs | example/client/burl/cookie.cpp:236-245 | the three words of same-site |
| SetCookie.ExpiryIsStandardIff | example/client/burl/cookie.cpp:206-221 | the expiry is the standard's unless Max-Age and Expires are both present, the last of the two is an Expires, and their times differ |
| SetCookie.LaterExpiresWins | example/client/burl/cookie.cpp:206-221 | attributes on which it is not |
| SetCookie.HostCookieIsPinned | example/client/burl/cookie.cpp:268-279 | an accepted `__Host-` cookie, while alive, is sent exactly with unexpired https requests to the same host, on every path |
| SetCookie.HostCookieNeedsHttps | example/client/burl/cookie.cpp:323-324 | such a cookie never enters the jar from an insecure URL |
| SetCookie.JarStaysComplete | example/client/burl/cookie.cpp:309-321 | histories without empty paths keep what lookups need |
| NetscapeFile.LineRoundTrip | example/client/burl/cookie.cpp:124-172 | a representable cookie's line parses back to it |
| NetscapeFile.LineHasFields | example/client/burl/cookie.cpp:388-412 | the seven fields of a printed line |
| NetscapeFile.ReadLineIsRepresentable | example/client/burl/cookie.cpp:124-172 | whatever is read is representable and prints as the line it was read from |
| NetscapeFile.WriteJar | example/client/burl/cookie.cpp:388-412 | the printed file |
| NetscapeFile.ReadJar | example/client/burl/cookie.cpp:414-429 | the cookies read, up to the first malformed line |
| NetscapeFile.FileRoundTripIff | example/client/burl/cookie.cpp:388-429 | printing and reading back gives the same cookies in order, up to same-site and partitioned, if and only if every cookie is representable |
| NetscapeFile.ReloadThrowsIff | example/client/burl/cookie.cpp:388-429 | reading a printed jar throws if and only if some cookie prints a line that is no comment and lacks a field, has one too many or one that does not parse |
| NetscapeFile.EmptyValueDoesNotReload | example/client/burl/cookie.cpp:414-429 | a cookie parsed from `a=` and added to a jar prints, and the file throws when read |
| NetscapeFile.ReadingIsLoading | example/client/burl/cookie.cpp:414-429 | reading a file adds its cookies to the history, each with a domain and a non-empty path |
| RouteParam.ParseConstraint | src/route_rule.hpp:193-227 | what the rule accepts and where it leaves the cursor |
| RouteParam.ParseName | src/route_rule.hpp:234-250 | what the rule accepts and where it leaves the cursor |
| RouteParam.ParseSegment | src/route_rule.hpp:272-307 | segment, rest and error of the rule |
| RouteParam.ParseIsSound | src/route_rule.hpp:188-308 | parsing succeeds only on the notation of a well-formed segment followed by the rest |
| RouteParam.PrintThenParseIff | src/route_rule.hpp:164-308 | printing in front of a rest and parsing gives both back if and only if the rest does not extend the segment, character by character |
| RouteParam.ErrorKinds | src/route_rule.hpp:272-282 | which error is reported |
| QuotedString.ScanQuoted | example/client/burl/utils.cpp:54-75 | the accepted slice ends at the first unescaped quote; the scanner reads past the end exactly when there is none |
| QuotedString.UnterminatedIsOverread | example/client/burl/utils.cpp:65-71 | on an unterminated text and on a dangling backslash the scanner reads past the end |
| QuotedString.CloseIff | example/client/burl/utils.cpp:65-74 | the closing quote is the one that ends a sequence of escape units |
| QuotedString.UnquoteString | example/client/burl/utils.cpp:80-94 | the text with escapes dropped, or a read past the end exactly for a dangling backslash |
| QuotedString.AcceptedIsUnquotable | example/client/burl/utils.cpp:80-94 | the unquoter stays inside every slice the scanner accepts |
| QuotedString.QuoteRoundTrip | example/client/burl/utils.cpp:50-94 | scanning a quoted text in front of anything consumes just it, and unquoting gives the text |
| ProgressMeter.MovedHistogram | example/client/burl/progress_meter.cpp:22-34 | the capped shift is right for any number of buckets passed |
| ProgressMeter.WrapIsModulo | example/client/burl/progress_meter.cpp:36-37 | byte counts wrap at 2^64 |
| ProgressMeter.UpdateStaysExact | example/client/burl/progress_meter.cpp:19-38 | every update keeps the window an exact histogram of the last five buckets |
| ProgressMeter.WindowAndPastAreTotal | example/client/burl/progress_meter.cpp:32-37 | bytes in the window and bytes shifted out make up the total |
| ProgressMeter.Meter.Update | example/client/burl/progress_meter.cpp:19-38 | the record made, the bucket it falls into and the new reference time |
| ProgressMeter.Meter.CurRate | example/client/burl/progress_meter.cpp:40-57 | the rate is all bytes in the first second and then the bytes of the four quarter seconds before the query's |
| ProgressMeter.FirstSecondShowsAll | example/client/burl/progress_meter.cpp:45-46 | in the first second the rate is everything transferred |
| ProgressMeter.IdleUpdateKeepsRate | example/client/burl/progress_meter.cpp:19-57 | an update of zero bytes does not change the rate at the same instant |
| RateLimit.CarefulRunsBalance | example/client/burl/any_stream.hpp:138-160 | in every careful run bytes moved and remaining budget make up the grants, and an operation in flight is covered |
| RateLimit.NoUnderflow | example/client/burl/any_stream.hpp:192-197 | no completion in such a run underflows the budget |
| RateLimit.UnderflowIffCareless | example/client/burl/any_stream.hpp:112-126 | lowering the limit during a transfer allows an underflow if and only if it goes below what was offered |
| RateLimit.UnderflowExample | example/client/burl/any_stream.hpp:112-126 | a run that underflows |
| RateLimit.RateIsLimited | example/client/burl/any_stream.hpp:176-198 | with the limit set first, bytes moved are at most limit times refills plus one, and limit times seconds plus one |
| RateLimit.OfferIsBudgetOrLimit | example/client/burl/any_stream.hpp:176-198 | an operation is offered as much as it asks for and the budget allows; with no budget it waits, and after the refill as much as it asked for and the limit in force allows |
| RateLimit.Limiter.Limit | example/client/burl/any_stream.hpp:112-126 | setting a limit as one step |
| RateLimit.Limiter.Start | example/client/burl/any_stream.hpp:143-157 | the first part of an operation as one step |
| RateLimit.Limiter.Resume | example/client/burl/any_stream.hpp:148-157 | the timer's resumption as one step |
| RateLimit.Limiter.Finish | example/client/burl/any_stream.hpp:158-159 | the transport's resumption as one step |
| RateLimit.StreamRateIsLimited | example/client/burl/any_stream.hpp:112-198 | in every interleaving of both directions each keeps to its own limit, whatever the other does |
| RateLimit.Stream.ReadStep | example/client/burl/any_stream.hpp:112-118 | any step of the read direction changes nothing of the write direction |
| RateLimit.Stream.WriteStep | example/client/burl/any_stream.hpp:120-126 | any step of the write direction changes nothing of the read direction |

## Left out

- Sockets, TLS, name resolution, coroutines and the HTTP parser and serializer: their results are parameters or labels.
- Clocks and random delays: times are parameters; dates and ages in Set-Cookie arrive already converted.
- The parsing of a URL pattern into generators, and of a Set-Cookie header into tokens: grammar combinators of another library. An empty pattern, on which the source reads `gs.front()` of an empty vector, is excluded by a precondition.
- RequestGenerator.DrainAll: requires generators that stop, because otherwise the loop does not end; `RequestGenerator.FirstTransfers` covers the others, call by call.
- Generator closures and the frames holding them are values, not objects: the source copies them by value.
- The public-suffix check of `cookie_jar::add`, compiled in only with libpsl.
- Redirect.FollowRedirects: origins are opaque strings compared for equality, and the target of a redirect is an arbitrary URL, not one resolved against the referer.
- Retry.RunWithRetries: the part of a transfer after the redirect loop contributes only how it fails.
- External cancellation of the 100-continue group, and handlers that run inside `emit`: they depend on the executor.
- RouteParam.ParseSegment: does not model the `prefix` and `term` members, which the rule leaves untouched.
- CookieJar.Jar.MakeCookieField: requires non-empty cookie paths, because the source indexes out of range otherwise.
- `path_rule_t::parse`, `segs.hpp`: unfinished in the source.
- HTTP servers, workers, SOCKS5 and proxy connections, base64, MIME types, the logger, JSON-RPC, option parsing other than the request generator: thin wrappers or single-branch code that would add only easy members.
