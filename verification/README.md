# Models of the Rackflow control panel's stateful cores

Rackflow is a control panel for dedicated and virtual servers, with small
runners at the edge (DHCP, TFTP, IPMI proxy, media). This project models the
parts that hold real state, loops or text arithmetic, and proves what they keep.

| module | what it models |
|---|---|
| `RunnerAgent`, `RunnerProtocol` | the uplink agent of a runner: debounced state publishing, request handling and reconnects as a step machine in which sends may yield; message envelopes |
| `IdentityCollapse` (with `FreshNames`) | the migration that folds external billing identities into users, and its downgrade |
| `TemplateCode` | the migration that gives every VM template a unique code |
| `ScriptSubstitution`, `ShellEscape` | rewriting an install script variable by variable, against one simultaneous substitution |
| `TemplateParameters` | filling template parameters from aliases, defaults and generated passwords |
| `InstallTasks` | one open installation per server, across the await inside a reinstall |
| `ServiceNames` | the free name search when a VM is adopted |
| `SessionCookie`, `Base64Url`, `Utf8` | the signed session cookie of the IPMI proxy (sections 3.2 and 5 of RFC 4648) |
| `UpstreamCache` | the upstream cache filled by a poll, a redeem and on a miss |
| `DaemonSupervisor` | start, stop and restart of a daemon under a lock (DHCP and TFTP) |
| `ByteRange` | the byte-range parser of the media runner (section 14.1.2 of RFC 9110) |
| `PortSpeed` | printing and parsing port speeds in a migration |
| `PyText` | the Python string functions the others share |

Conventions. An operation that updates tables, dictionaries or attributes is a
class method or a loop proved equal to a specification function; the properties
are lemmas about that function. Code between two awaits is one atomic step, and
`Run` folds a step function over an arbitrary list of events, so a lemma about
`Run` is about every interleaving. Clocks, generated ids and passwords, row
orders, remote answers and the keyed digest are parameters.

## What the proofs found

- **Lost state updates.** `publish_state` drops a publish that arrives inside
  the debounce window while the delayed flush task has already encoded its
  frame but its send has not returned. That is the only way to lose one
  (`NoLostUpdateIff`, `LostUpdateReachable`); with sends that do not yield it
  cannot happen.
- **Debounce rate.** Over three consecutive frames the window is kept in every
  run if and only if one of the last two was sent at once without waiting for
  the lock, or both were sent by the timer. For every other pair of frames there
  is a run in which all three leave at the same instant (`RateBoundIff`,
  `WaitingBreaksRateBound`). Among unforced frames those are an immediate frame
  that waited for the lock beside another such, or beside a timer frame.
- **State before reply.** On a connection where a reply precedes every state
  frame, the latest state was not serialisable at some moment
  (`SessionProtocol`); so the order holds in every run if and only if every state
  the application publishes is serialisable (`StateBeforeReplyIff`).
- **Second open install.** There are two ways to one, and no other
  (`AtMostOneOpenIff`). `mark_in_progress` does not look at the old status, so the
  installer of a cancelled task can reopen it beside the new one
  (`CancelledTaskCanReopen`). And the administrators' boot-task route creates its
  task without looking for an open one (`AdminInstallAddsOpenTask`).
- **Script rewriting** is one left-to-right substitution when no value holds a
  `$` that starts or could continue a reference, no default holds a `$`, and no
  unfinished reference stands right before a reference. Names may be prefixes of
  each other, as `PARAM_SSH_PUBLIC_KEY` is of `PARAM_SSH_PUBLIC_KEYS` whenever SSH
  keys are supplied: where a `$V` could be meant for several of them, the first in
  dictionary order is (`SequentialIsSimultaneous`).
- **Dictionary order** never matters to a script that is clear in this sense in every
  order if and only if no `$V` in it is ambiguous in that way (`OrderNeverMattersIff`).
  Only a `$V` without braces can be: `${V}` and `${V:-default}`, the spellings
  the templates use for parameters, are unambiguous over every table
  (`HeadsOverlap`, `BracedIsUnambiguous`). For each of the other conditions there is a lemma with two
  orders and two results where it is dropped.
- **Values as templates.** `re.sub` reads the value as a template, so
  `${V:-default}` gets another text than `${V}` exactly when the parameter holds a
  backslash (`DefaultFormKeepsValueIff`).
- **Resolving parameters twice** never raises the second time, but may change the
  result: if and only if the request had no password alias, the template itself
  gives `password` or `admin_password` a value, and a password parameter is
  left empty; or the template declares `ssh_public_keys` but not `ssh_public_key`
  and the request has neither (`SecondEqualsFirstIff`, `SecondCanDiffer`). What is
  generated plays no part, and a third time changes nothing.
- **Re-running the identity migration** after it stopped before the unique
  constraint works, from a first run with blank billing columns, if and only if:
  the loops were still uncommitted; or both old tables are left and every external
  user was linked; or only the link table is gone and there is no external user; or
  both old tables are gone (`RerunAfterInterruptionIff`).
- **Codes.** The search needs no more rounds than there are codes in use if and
  only if the base is not its own numbered candidate, that is 128 characters
  ending in a "-n" of at most 126 digits (`RoundsAtMostUsedIff`,
  `OwnCandidateIff`). Every base that is one reaches a counter of |used| + 3, not
  |used| + 2, on a list of n rows (`LargerBoundReached`).
- **Escaped parameters in defaults.** `re.sub` halves the backslashes of an
  escaped value. The shell still reads the parameter, without its control
  characters, back from the default form if and only if each backslash in it is
  followed by an ordinary character once those are removed
  (`DefaultFormReadsBackIff`).
- **Port speeds.** The comment in the downgrade says 1000 becomes "1Gbps";
  division in MySQL gives four decimals, so the code prints "1.0000Gbps", and so
  for every whole number of gigabits (`GigabitsPrintLong`). The model follows the
  code. Read back without strict SQL mode the round trip holds for every speed. In
  strict mode, where the warning about the text left after the digits is an error,
  it holds if and only if no speed is a whole number of gigabits
  (`StrictTableRoundTripIff`).
- **Cookies that raise.** The docstring promises the uuid or None, but the signature
  is compared outside the try: a cookie that parses and has a non-ASCII signature
  raises, and nothing else does (`RaisesIff`, `AppendedCharacterRaises`).

## Model

| member | source | states |
|---|---|---|
| RunnerAgent.StepKeepsInv | runner_common/agent.py:67-174 | every step of publishing, timer, lock, send, session and reconnect keeps: frames are genuine snapshots in order and spaced, one delayed flush at most, flushes belong to known connections |
| RunnerAgent.FramesNeverGoBack | runner_common/agent.py:107-116 | in every run, sends yielding or not, a later state frame of a connection never shows an older snapshot, and each shows a value the latest state really had |
| RunnerAgent.RateBound | runner_common/agent.py:67-79 | three consecutive state frames span at least 0.4 s when one of the last two was sent at once without a wait, or both by the timer |
| RunnerAgent.RateBoundIff | runner_common/agent.py:67-116 | for every pair of ways the last two frames can come about, the 0.4 s bound holds in all runs if and only if it is one of those pairs |
| RunnerAgent.WaitingBreaksRateBound | runner_common/agent.py:107-116 | for every other pair, forced or not, a run whose last three frames leave at the same instant |
| RunnerAgent.DelayIsBounded | runner_common/agent.py:67-79 | the single delayed flush is due 0.05 s to 0.4 s after it was scheduled |
| RunnerAgent.StepCoversIff | runner_common/agent.py:67-116 | a step loses track of the latest state if and only if it is an unforced publish inside the window while the delayed flush has encoded but not finished |
| RunnerAgent.NoLostUpdateIff | runner_common/agent.py:67-116 | over whole runs: at every moment the last frame shows the latest state or a flush is under way, if and only if no such publish happens |
| RunnerAgent.NoLostUpdateWithAtomicSends | runner_common/agent.py:67-116 | when every publish finds no send under way, no update is lost in any run |
| RunnerAgent.CoveredAtRestIsInSync | runner_common/agent.py:98-116 | with nothing scheduled or waiting, the peer's last state frame is the latest state |
| RunnerAgent.LostUpdateReachable | runner_common/agent.py:67-116 | a run that ends at rest on an open connection with the peer showing an older state |
| RunnerAgent.SessionProtocol | runner_common/agent.py:118-174 | on every connection: hello first and only once, decoded reply ids are a prefix of the request ids with at most one outstanding, a state frame precedes every reply unless the latest state was not serialisable at some moment of that connection |
| RunnerAgent.StateBeforeReplyIff | runner_common/agent.py:107-174 | a state frame precedes every reply in all runs if and only if every state the application publishes is serialisable |
| RunnerAgent.StepMutes | runner_common/agent.py:111-116 | the opening flush is left without a frame only by a step at which the latest state cannot be serialised |
| RunnerAgent.ReplyWithoutState | runner_common/agent.py:137-166 | with an unserialisable opening state, for every request and outcome, a run whose first frame after hello is the reply |
| RunnerAgent.RepliesTellOutcomes | runner_common/agent.py:118-166 | on every connection the k-th reply, as decoded, has the id of the k-th request taken and says what became of the k-th request handled: ok and its result, or not ok and a non-empty error |
| RunnerAgent.RequestIsAnswered | runner_common/agent.py:118-135 | a serving session takes a decodable request and puts exactly one reply about its outcome on the wire |
| RunnerAgent.StepWire | runner_common/agent.py:107-146 | a step adds at most one frame: hello on a new connection, a reply when one is due, and no reply otherwise |
| RunnerAgent.InboxIsRequests | runner_common/agent.py:157-166 | the requests taken are exactly the decodable requests that arrived while none was being handled |
| RunnerAgent.Settles | runner_common/agent.py:98-116 | from any covered moment of an open connection, time, timer and lock alone lead to the peer having the latest state |
| RunnerAgent.PublishSendsAtOnce | runner_common/agent.py:67-75 | a forced publish, or one 0.4 s after the last push, is on the wire at once when the lock is free |
| RunnerAgent.PublishSchedules | runner_common/agent.py:74-79 | any other publish sends nothing; the first one schedules the flush for the end of the window, at least 0.05 s ahead |
| RunnerAgent.OpeningSendsState | runner_common/agent.py:137-147 | a new connection carries hello, then the provided state, then serves |
| RunnerAgent.EventIsSent | runner_common/agent.py:81-88 | an event is sent at once on an open connection and nowhere else |
| RunnerAgent.SendDoneEffects | runner_common/agent.py:111-116 | the last push moves if and only if the send went through; either way the lock is free and the delayed task over |
| RunnerAgent.LateFlushIsDropped | runner_common/agent.py:107-116 | a flush that waited for a connection now gone sends nothing and moves nothing |
| RunnerAgent.ConnectionEnds | runner_common/agent.py:157-174 | a drop closes the connection, the end of a session takes the agent offline, and offline nothing is sent |
| RunnerAgent.Agent.Publish | runner_common/agent.py:67-79 | the fields after `publish_state` are those of the step machine: recorded always, flushed, scheduled or dropped |
| RunnerAgent.Agent.FlushState | runner_common/agent.py:107-116 | `_flush_state` up to its first await: nothing offline, send if the lock is free, else queue |
| RunnerAgent.Agent.BeginFlush | runner_common/agent.py:111-116 | under the lock the state that is latest now is encoded, not the one at the call |
| RunnerAgent.Agent.FinishFlush | runner_common/agent.py:98-105 | a finished flush ends its task; the opening one starts the receive loop |
| RunnerAgent.Agent.WakeDelayedFlush | runner_common/agent.py:98-105 | the delayed flush after its sleep is the machine's timer step |
| RunnerAgent.Agent.SendReturns | runner_common/agent.py:113-116 | only a send that went through moves the time of the last push |
| RunnerAgent.Agent.GrantWaiting | runner_common/agent.py:107-116 | waiting flushes get the lock first come first served |
| RunnerProtocol.MessageRoundTrip | runner_common/protocol.py:44-79 | decoding an encoded message gives kind, payload and id back; the given id survives exactly when it is truthy |
| RunnerProtocol.DecodedIdIsTruthy | runner_common/protocol.py:62-79 | whatever frame arrives, an accepted message has a truthy id |
| RunnerProtocol.ReplyKeepsId | runner_common/protocol.py:105-111 | a reply to a decoded request decodes to that request's id |
| RunnerProtocol.ReplySaysOutcome | runner_common/protocol.py:105-111 | a decoded reply has "ok" true with exactly a result, or "ok" false with exactly a non-empty error that gives the exception text or names the unknown method |
| RunnerProtocol.DecodesIff | runner_common/protocol.py:62-79 | a frame is accepted if and only if it is an object of version 1 with a known type, a truthy id and an object, null or absent payload; what is then read |
| RunnerProtocol.EncodedFields | runner_common/protocol.py:44-59 | version, type text, id and payload of an encoded message |
| RunnerProtocol.FalsyValues | runner_common/protocol.py:72-73 | an id counts as missing if and only if it is null, false, zero or empty |
| IdentityCollapse.CollapseKeeps | alembic/versions/identity_collapse_users.py:149-199 | after any prefix of the rows: logins unique and untouched, every processed row has its linked user or one of its own, every user carries the identity that stamped it last or its old one |
| IdentityCollapse.UpgradeKeepsLogins | alembic/versions/identity_collapse_users.py:91-109 | usernames and emails stay pairwise distinct, existing users keep everything but billing columns, new users have no password and no admin flag |
| IdentityCollapse.OwnershipConserved | alembic/versions/identity_collapse_users.py:201-216 | a service that had an external user ends up owned: by its old owner, else the linked user, else the user created for that very identity |
| IdentityCollapse.UnlinkedKeepsItsStamp | alembic/versions/identity_collapse_users.py:170-199 | the user created for an unlinked identity still carries it at the end of the loop |
| IdentityCollapse.StampedByIffSurvives | alembic/versions/identity_collapse_users.py:188-199 | last write wins: a row is the one a user carries if and only if no later row is linked to the same user |
| IdentityCollapse.UniqueConstraintHoldsIff | alembic/versions/identity_collapse_users.py:234-239 | the unique constraint can be added if and only if the pairs that unstamped users carried before clash neither with each other nor with a surviving row |
| IdentityCollapse.UniqueConstraintHolds | alembic/versions/identity_collapse_users.py:159-239 | on a first run the constraint can always be added, several links to one user included |
| IdentityCollapse.RerunAfterInterruptionIff | alembic/versions/identity_collapse_users.py:112-239 | for each point where a run can stop, the second run can add the constraint if and only if: loops rolled back; tables kept and every external user linked; link table gone and no external user; both tables gone |
| IdentityCollapse.RoundTripRenames | alembic/versions/identity_collapse_users.py:292-322 | upgrade then downgrade restores identities and links up to a one-to-one renaming of primary keys when no user was linked twice |
| IdentityCollapse.RoundTripKeepsRowsIff | alembic/versions/identity_collapse_users.py:242-322 | no identity is lost or invented by the round trip if and only if no user was linked to two of them |
| IdentityCollapse.DowngradeKeepsUsers | alembic/versions/identity_collapse_users.py:292-358 | every user stays with its login and loses its billing columns, services stay, every restored link points at a user |
| IdentityCollapse.RoundTripKeepsUsers | alembic/versions/identity_collapse_users.py:112-358 | over the round trip every original user is back with its own login, and every service that had an owner or an external user has an owner, the old one if any |
| IdentityCollapse.UpgradeDropsTables | alembic/versions/identity_collapse_users.py:216-232 | nothing of the old tables and columns is left |
| IdentityCollapse.SafeBase | alembic/versions/identity_collapse_users.py:91-92 | the cleaned base name is non-empty and holds only username characters |
| IdentityCollapse.SafeBaseOf | alembic/versions/identity_collapse_users.py:91-92 | the cleaned base has only letters, digits and "_.-", none of these three at its ends, and is one piece of what the filter keeps, or "client" |
| IdentityCollapse.KeepsByChar | alembic/versions/identity_collapse_users.py:48 | the filter drops exactly the characters outside letters, digits and "_.-", in order |
| IdentityCollapse.CreatedUserNames | alembic/versions/identity_collapse_users.py:170-186 | a created user's username is the first free of base, base1, base2 and so on; its email the billing email if free, else the first free placeholder |
| IdentityCollapse.OneUserCreated | alembic/versions/identity_collapse_users.py:170-186 | an unlinked identity creates exactly one user under the next key, a linked one none |
| IdentityCollapse.CleanNameIsKept | alembic/versions/identity_collapse_users.py:174-175 | a clean external username that is free is taken over as it is |
| IdentityCollapse.UsernameNumbering | alembic/versions/identity_collapse_users.py:93-98 | different suffixes give different usernames, so the search ends |
| IdentityCollapse.EmailNumbering | alembic/versions/identity_collapse_users.py:104-109 | different suffixes give different placeholder emails, so the search ends |
| IdentityCollapse.Database.FindUsername | alembic/versions/identity_collapse_users.py:91-98 | the search loop finds the first free numbered username |
| IdentityCollapse.Database.FindEmail | alembic/versions/identity_collapse_users.py:101-109 | the billing email if it is free, else the first free numbered placeholder |
| IdentityCollapse.Database.InsertUser | alembic/versions/identity_collapse_users.py:170-186 | one row is inserted under a fresh key, with fresh username and email |
| IdentityCollapse.Database.CollapseRow | alembic/versions/identity_collapse_users.py:159-199 | one pass of the loop: the linked or created user is stamped and remembered |
| IdentityCollapse.Database.CollapseExternalUsers | alembic/versions/identity_collapse_users.py:152-199 | the loop over the tables computes the fold the theorems are about, for every row order |
| IdentityCollapse.Database.RemapServices | alembic/versions/identity_collapse_users.py:201-216 | the row loop gives owners to exactly the unowned services whose identity has one |
| IdentityCollapse.Database.UpgradeTables | alembic/versions/identity_collapse_users.py:112-232 | the tables after the upgrade are those of the specification |
| IdentityCollapse.Database.DowngradeTables | alembic/versions/identity_collapse_users.py:292-322 | the insertion loop rebuilds both tables from the billing columns |
| FreshNames.TakenAtMost | alembic/versions/identity_collapse_users.py:95-98 | pigeonhole: an injective numbering has at most as many taken names as there are names in use |
| FreshNames.Search | alembic/versions/identity_collapse_users.py:93-98 | the search loop ends at the first free name, within as many rounds as names in use |
| ServiceNames.UniqueAdoptServiceName | app/api/billing.py:1331-1338 | the adopted service gets the first free name of base, base-2, base-3 and so on; the search ends |
| TemplateCode.Slugify | alembic/versions/vm_template_code.py:22-26 | a slug is 1 to 128 characters of a-z, 0-9 and dash |
| TemplateCode.SlugIsWordsJoined | alembic/versions/vm_template_code.py:22-26 | a slug is the maximal stretches of a-z and 0-9 in the lower-case text joined by single dashes, cut at 128, and "template" when there is none |
| TemplateCode.SlugKeepsCharacters | alembic/versions/vm_template_code.py:22-26 | without its dashes a slug is the beginning of the word characters of the lower-case text, all of them below 128; no dash is first or doubled |
| TemplateCode.SlugIgnoresCase | alembic/versions/vm_template_code.py:23 | letters of either case give the same slug |
| TemplateCode.BaseCodeOf | alembic/versions/vm_template_code.py:39 | the base is the slug of the first non-empty of Proxmox name, name and numbered fallback |
| TemplateCode.CandidateOf | alembic/versions/vm_template_code.py:43-44 | a numbered candidate is base and suffix where they fit, else as much of the base as fills 128 with the suffix |
| TemplateCode.CandidateInjective | alembic/versions/vm_template_code.py:42-45 | truncated candidates of different counters differ |
| TemplateCode.RoundsBounded | alembic/versions/vm_template_code.py:39-45 | the search needs at most one more round than codes in use, and no more than those unless the base is its own candidate |
| TemplateCode.OwnCandidateIff | alembic/versions/vm_template_code.py:43-44 | a base is its own candidate for n exactly when it fills the column and ends in that suffix |
| TemplateCode.RoundsAtMostUsedIff | alembic/versions/vm_template_code.py:39-45 | for every set of used codes the search needs at most as many rounds as codes, if and only if the base is not its own candidate |
| TemplateCode.LargerBoundReached | alembic/versions/vm_template_code.py:36-50 | for every base that is its own candidate for n, the last of n rows with that base needs one round more than there are codes in use |
| TemplateCode.CodesDistinct | alembic/versions/vm_template_code.py:36-50 | for every list of rows, no two rows get the same code |
| TemplateCode.CodesFit | alembic/versions/vm_template_code.py:36-50 | every code is a slug of 1 to 128 characters while the row count has fewer than 126 digits |
| TemplateCode.CandidateFitsIff | alembic/versions/vm_template_code.py:43-44 | a numbered candidate fits the column exactly when its counter has at most 126 digits |
| TemplateCode.ColumnHoldsEveryCode | alembic/versions/vm_template_code.py:47-50 | with distinct row ids every row's update survives |
| TemplateCode.FindCode | alembic/versions/vm_template_code.py:39-45 | the while loop ends at the first unused code, with its counter within the bound |
| TemplateCode.AssignCodes | alembic/versions/vm_template_code.py:36-50 | the row loop writes exactly the codes the theorems are about |
| ScriptSubstitution.HeadsOverlap | app/api/billing.py:899-905 | two references start at one position only when both are without braces and one name continues the other |
| ScriptSubstitution.HeadsClash | app/api/billing.py:897-905 | with names none of which is a prefix of another, at most one reference starts at a position |
| ScriptSubstitution.ReplaceRendered | app/api/billing.py:899-905 | when a variable's turn has come, replacing one form of it in the partly rewritten script changes exactly the references meant for it |
| ScriptSubstitution.SequentialIsSimultaneous | app/api/billing.py:897-905 | for every variable order and any names, the rewrite loop equals one left-to-right simultaneous substitution in which earlier variables win |
| ScriptSubstitution.BracedText | app/api/billing.py:899 | `${V}` becomes the value |
| ScriptSubstitution.DefaultedText | app/api/billing.py:900-904 | `${V:-default}` up to the first closing brace becomes the value as re.sub inserts it |
| ScriptSubstitution.BareText | app/api/billing.py:905 | `$V` becomes the value unless another variable could be meant |
| ScriptSubstitution.OtherDollar | app/api/billing.py:897-905 | any other `$` is copied |
| ScriptSubstitution.PlainText | app/api/billing.py:897-905 | text without `$` is copied |
| ScriptSubstitution.TemplateEscapes | app/api/billing.py:900-904 | which backslash escapes re.sub turns into characters, keeps or refuses |
| ScriptSubstitution.OrderDoesNotMatter | app/api/billing.py:897-905 | every two orders give the same script when no `$V` is ambiguous |
| ScriptSubstitution.AmbiguousDependsOnOrder | app/api/billing.py:897-905 | for every ambiguous script there are plain values and two orders that give two results |
| ScriptSubstitution.OrderNeverMattersIff | app/api/billing.py:897-905 | for a script clear in every order, dictionary order matters for no values if and only if no `$V` is ambiguous |
| ScriptSubstitution.BracedIsUnambiguous | app/api/billing.py:899-904 | a script that writes every reference with braces is unambiguous, whatever the names |
| ScriptSubstitution.TwoLoopsAreOneSubstitution | app/api/billing.py:897-940 | running the loop again with the task id added equals one substitution with the larger table, for any names; only the task id changes anything |
| ScriptSubstitution.RewriteScript | app/api/billing.py:897-905 | the loop that overwrites the script computes that sequence of replacements, errors included |
| ScriptSubstitution.PrefixNamesDependOnOrder | app/api/billing.py:898-905 | for any name that is a prefix of another, two orders give two results |
| ScriptSubstitution.ReferenceInValueDependsOnOrder | app/api/billing.py:898-905 | for any value that spells a reference, one order substitutes it again and the other keeps it |
| ScriptSubstitution.UnfinishedReferenceDependsOnOrder | app/api/billing.py:898-905 | a value that completes an unfinished reference before it makes the order matter |
| ScriptSubstitution.ReferenceInDefaultDependsOnOrder | app/api/billing.py:900-904 | a reference inside a default makes the order matter: the outer pattern stops at the inner brace |
| ScriptSubstitution.TemplateKeepsPlain | app/api/billing.py:900-904 | a value without backslash is inserted by re.sub unchanged |
| ShellEscape.EscapingIsOnePass | app/utils/shell_escape.py:41-48 | the four replacements in a row escape each special character once |
| ShellEscape.EscapedValueReadsBack | app/utils/shell_escape.py:22-48 | inside double quotes the shell reads an escaped value as the value, control characters aside |
| ShellEscape.ReadsBackAllButControls | app/utils/shell_escape.py:22-48 | the text read back is the value with exactly the characters below U+0020 other than tab left out, in order; the value itself when it has none |
| ShellEscape.DefaultFormKeepsValueIff | app/api/billing.py:802-803 | an escaped parameter never makes re.sub raise, and the default form gets its exact text if and only if it holds no backslash |
| ShellEscape.DefaultFormReadsBackIff | app/api/billing.py:900-904 | the shell reads a parameter back from the default form if and only if each backslash of the cleaned parameter is followed by an ordinary character |
| TemplateParameters.ResolutionSettles | app/api/billing.py:654-687 | after one resolution every declared parameter is a string, empty only without default and generator |
| TemplateParameters.ResolvedFromSource | app/api/billing.py:621-641 | a declared value is the request's own text; else, for a password, its password or admin_password; else the default; else, with a generator, the generated text; else empty |
| TemplateParameters.ResolveFollowsTemplate | app/api/billing.py:654-687 | the returned dictionary has such a value for every declared name and the request's value for every other, lists joined |
| TemplateParameters.MissingNamesAre | app/api/billing.py:669-675 | a name is missing if and only if it is required and every source is empty |
| TemplateParameters.TextOf | app/api/billing.py:579-586 | booleans in lower case, lists by line without None and empty items, None as the empty text |
| TemplateParameters.SettledStep | app/api/billing.py:654-687 | resolving a resolved dictionary can only fill empty passwords from the alias and add the ssh key alias |
| TemplateParameters.NonEmptyValueKept | app/api/billing.py:621-641 | a non-empty declared value survives another resolution, whatever the generator |
| TemplateParameters.SecondResolutionSucceeds | app/api/billing.py:3179 | once the first resolution succeeded the one inside the queue call cannot raise |
| TemplateParameters.SettledFixpointIff | app/api/billing.py:608-618 | a resolved dictionary is a fixpoint if and only if its aliases have been applied |
| TemplateParameters.SecondEqualsFirstIff | app/api/billing.py:654-687 | the stored second resolution equals the validated first unless the template brings a password or ssh alias that the request lacked and that something is waiting for, and only then; a condition on template and request alone |
| TemplateParameters.ThirdEqualsSecond | app/api/billing.py:654-687 | a third resolution equals the second, for every template, input and generators |
| TemplateParameters.NothingMissingIff | app/api/billing.py:669-675 | the list of missing names is empty exactly when no declared parameter is missing |
| TemplateParameters.FillDeclared | app/api/billing.py:669-675 | the loop gives every declared parameter its value and lists the missing ones in order |
| TemplateParameters.MergeExtra | app/api/billing.py:644-651 | the loop adds every undeclared key and never overwrites a declared one, in any key order |
| TemplateParameters.ResolveTemplateParameters | app/api/billing.py:654-687 | succeeds exactly when no required parameter has all its sources empty; then every value comes from the first source that has one, else the missing names are listed |
| InstallTasks.StepKeepsAtMostOneIff | app/api/billing.py:736-742 | a step from a state with at most one open task per server leaves such a state if and only if it neither reopens a closed task nor creates an administrator's task beside an open one |
| InstallTasks.AtMostOneOpenIff | app/api/billing.py:3187-3196 | the same over every interleaving of installs by both routes, split reinstalls, cancels and status changes |
| InstallTasks.CancelledTaskCanReopen | app/dao/installation_task_dao.py:67-76 | install, reinstall, then a report of the replaced installer leave two open tasks |
| InstallTasks.AdminInstallAddsOpenTask | app/api/server_interaction.py:1592-1604 | from any state, an administrator's template install leaves every open task of the server open beside its own |
| InstallTasks.AdminInstallBesideInstall | app/api/server_interaction.py:1592-1604 | from the empty table, an install and an administrator's install leave two open tasks |
| InstallTasks.CancelOnClosesAll | app/api/billing.py:698-714 | cancelling closes every open task of the server and leaves other servers' alone |
| InstallTasks.CancelOnRows | app/dao/installation_task_dao.py:139-147 | the server's pending and in-progress tasks become cancelled, every other row stays |
| InstallTasks.StepRows | app/dao/installation_task_dao.py:13-157 | what each event does to the table: one pending row more, one status changed, or exactly the server's pending rows gone |
| InstallTasks.ReinstallReplacesOpenTasks | app/api/billing.py:3187-3196 | if nothing opens on the server during the await, a reinstall ends with exactly one open task, its own |
| InstallTasks.ReinstallRefusedIff | app/api/billing.py:736-742 | the second half of a reinstall is refused if and only if a task is open at that moment |
| InstallTasks.TaskTable.GetActiveByServer | app/dao/installation_task_dao.py:53-58 | finds some open task of the server if and only if there is one |
| InstallTasks.TaskTable.CancelTask | app/dao/installation_task_dao.py:139-147 | only an open task is cancelled, and no other row changes |
| InstallTasks.TaskTable.Mark | app/dao/installation_task_dao.py:68-110 | the status is set whatever it was |
| InstallTasks.TaskTable.DeletePendingByServer | app/dao/installation_task_dao.py:150-157 | exactly the server's pending tasks disappear |
| InstallTasks.TaskTable.CancelOpenServerTasks | app/api/billing.py:698-714 | the loop ends, closes all open tasks of the server and returns how many there were |
| InstallTasks.TaskTable.QueueTemplateInstall | app/api/billing.py:736-742 | creates a task if and only if the server has no open one |
| InstallTasks.TaskTable.CreateTask | app/dao/installation_task_dao.py:13-35 | a pending task is inserted under a fresh id whatever is open |
| InstallTasks.TaskTable.ReinstallUntilAwait | app/api/billing.py:3187-3190 | up to the await, the open tasks are cancelled and the request is suspended |
| InstallTasks.TaskTable.ReinstallAfterAwait | app/api/billing.py:3194-3196 | after the await the same check and creation run on the table as it is then |
| Base64Url.DecodeInvertsEncode | ipmi_proxy_runner/main.py:125-136 | decoding inverts encoding for every byte string |
| Base64Url.PaddingRestored | ipmi_proxy_runner/main.py:125-135 | stripping the padding and adding it back from the length gives the encoder's text; nothing else is stripped |
| Base64Url.EncodeShape | ipmi_proxy_runner/main.py:125 | letters, digits, "-" and "_", then at most two padding signs, in all a multiple of four |
| Base64Url.NoiseSkipped | ipmi_proxy_runner/main.py:135-136 | the decoder skips every character outside the alphabets, wherever it stands |
| Utf8.RoundTrip | ipmi_proxy_runner/main.py:125-136 | every string survives encoding and decoding |
| Utf8.DecodedIsCanonical | ipmi_proxy_runner/main.py:136 | bytes that decode are the encoding of the text, so overlong forms and surrogates are refused |
| SessionCookie.PayloadRoundTrip | ipmi_proxy_runner/main.py:122-136 | the payload read from the cookie's first part is the payload, and that part holds no dot |
| SessionCookie.CookieRoundTrip | ipmi_proxy_runner/main.py:122-145 | for every uuid (dots allowed), ttl and time: the uuid exactly until floor(issued) + max(1, ttl) inclusive, rejected afterwards |
| SessionCookie.RaisesIff | ipmi_proxy_runner/main.py:129-145 | verification raises if and only if the cookie parses and its signature is not ASCII |
| SessionCookie.AppendedCharacterRaises | ipmi_proxy_runner/main.py:141 | any fresh cookie with a non-ASCII character appended makes it raise |
| SessionCookie.AcceptedOnlyIfSigned | ipmi_proxy_runner/main.py:129-145 | whatever cookie is presented, a uuid comes back only with the digest of that uuid and an expiry not yet passed |
| SessionCookie.AcceptedIff | ipmi_proxy_runner/main.py:129-145 | a value is accepted for a uuid if and only if it is a text of that uuid and an unexpired time with its digest |
| SessionCookie.RejectedTexts | ipmi_proxy_runner/main.py:131-140 | no cookie, one without a dot and one whose first part is not ASCII are rejected |
| PyText.DecimalRoundTrip | ipmi_proxy_runner/main.py:124-138 | reading the decimal digits of a number gives the number |
| PyText.SplitLastAt | ipmi_proxy_runner/main.py:134-137 | splitting at the last dot takes off exactly a dot-free tail |
| PyText.ParseIntOfDecimal | ipmi_proxy_runner/main.py:138 | int() of a printed natural number is that number |
| PyText.ParseIntSigned | media_runner/main.py:292-299 | int() reads a sign and digits |
| PyText.ParseIntRefuses | media_runner/main.py:300-301 | int() refuses text without a digit or with a character that is neither digit, space, sign nor underscore |
| PyText.StripTrims | media_runner/main.py:288 | strip() takes off the spaces at both ends and nothing else |
| UpstreamCache.ListingTruthy | ipmi_proxy_runner/main.py:173-177 | the new map has only non-empty uuids and urls |
| UpstreamCache.ListingIs | ipmi_proxy_runner/main.py:173-177 | a uuid is listed if and only if some row with a url has it, with the url of the last such row |
| UpstreamCache.LookupBeginsWithHit | ipmi_proxy_runner/main.py:207-211 | a non-empty url in the cache answers at once, anything else needs a sync |
| UpstreamCache.ArrivalEffects | ipmi_proxy_runner/main.py:178-180 | a poll's answer replaces the cache with its version, a redeem's one entry of it, a failed sync nothing |
| UpstreamCache.LookupPhases | ipmi_proxy_runner/main.py:207-218 | answers are made from the list as it is; a lookup syncs once, applies only its own answer, fails only before that, and ends once |
| UpstreamCache.CacheWasListed | ipmi_proxy_runner/main.py:165-218 | in every interleaving of poll, redeem, lookup and list change the cache holds only urls that some version of the list had |
| UpstreamCache.LookupIsFresh | ipmi_proxy_runner/main.py:207-218 | after a miss whose sync succeeds the result is what some version listed that is no older than the oldest answer still in flight when the lookup began |
| UpstreamCache.FixedListLookupIsExact | ipmi_proxy_runner/main.py:165-218 | with a fixed list the cache stays a sub-map and such a lookup returns exactly the listed url, stale polls and redeems included |
| UpstreamCache.UndisturbedLookup | ipmi_proxy_runner/main.py:207-218 | a miss whose sync comes through with nothing in between answers from the current list |
| UpstreamCache.Upstreams.ApplySync | ipmi_proxy_runner/main.py:173-180 | the cache becomes exactly the answer's listing |
| UpstreamCache.Upstreams.ApplyPoll | ipmi_proxy_runner/main.py:165-181 | applying a poll's answer is the machine's step for the version it was made from |
| UpstreamCache.Upstreams.ApplyRedeem | ipmi_proxy_runner/main.py:279-287 | one entry is written, only for a ticket answered for this host and with a url; that is the machine's step |
| UpstreamCache.Upstreams.BeginLookup | ipmi_proxy_runner/main.py:207-211 | a non-empty hit ends the lookup, anything else starts its sync |
| UpstreamCache.Upstreams.ApplyLookupSync | ipmi_proxy_runner/main.py:213-214 | its own sync's answer replaces the cache |
| UpstreamCache.Upstreams.FinishLookup | ipmi_proxy_runner/main.py:217-218 | the second look answers from the cache as other requests have left it |
| DaemonSupervisor.StepKeepsInv | dhcp_runner/main.py:221-277 | every step of start, stop, timeout, exit and reap keeps: an unreaped process is the current one or the one just spawned |
| DaemonSupervisor.AtMostOneDaemon | dhcp_runner/main.py:221-277 | in every interleaving at most one process is unreaped, and outside a spawn a live one is the current one |
| DaemonSupervisor.StopLeavesNone | tftp_runner/main.py:231-289 | when stop clears the process, every process ever started has been reaped |
| DaemonSupervisor.StartSpawnsIff | dhcp_runner/main.py:221-239 | a start that has the lock spawns if and only if the config file exists and no process is unreaped, and makes the new one current |
| DaemonSupervisor.StopTerminatesIff | dhcp_runner/main.py:251-257 | a stop that has the lock terminates if and only if some process is unreaped |
| DaemonSupervisor.StopEndsOnlyReaped | dhcp_runner/main.py:258-263 | a stop gets out of its waits only with every process reaped; a time-out before that kills |
| DaemonSupervisor.StepEffects | dhcp_runner/main.py:221-266 | processes change only by spawning, exiting and reaping, the current one only at assignment and after a completed wait |
| DaemonSupervisor.UndisturbedStart | tftp_runner/main.py:231-255 | a start with nothing in between leaves one running daemon and the lock free |
| DaemonSupervisor.UndisturbedStop | tftp_runner/main.py:263-280 | a stop with nothing in between leaves that daemon reaped, none current and the lock free |
| DaemonSupervisor.ReportedRunningIff | dhcp_runner/main.py:88-89 | outside a spawn, "running" is reported if and only if some process is unreaped |
| DaemonSupervisor.Supervisor.BeginStart | dhcp_runner/main.py:221-227 | a spawn begins if and only if the config file exists and nothing runs |
| DaemonSupervisor.Supervisor.Spawn | dhcp_runner/main.py:231-237 | one new live process, not yet assigned |
| DaemonSupervisor.Supervisor.AssignProcess | dhcp_runner/main.py:232-239 | the spawned process becomes the current one |
| DaemonSupervisor.Supervisor.BeginStop | dhcp_runner/main.py:251-257 | a termination begins if and only if something runs |
| DaemonSupervisor.Supervisor.ClearProcess | dhcp_runner/main.py:258-263 | the current process is cleared with every process reaped |
| ByteRange.ParseByteRange | media_runner/main.py:285-304 | whatever the header, an accepted range lies inside the file and is not empty |
| ByteRange.ParsesSpec | media_runner/main.py:285-304 | the first-last, first- and -suffix forms of RFC 9110, unit in any letter case, are read as section 14.1.2 says |
| ByteRange.AcceptedIffSelectsSome | media_runner/main.py:285-304 | accepted if and only if the specifier selects some byte of the file, and then start to end are exactly the selected positions |
| ByteRange.PartialBodyIsExact | media_runner/main.py:325-333 | a partial body has the announced length and is that slice of the file |
| ByteRange.WithoutRange | media_runner/main.py:314-323 | without a range a GET yields the whole content, a HEAD its length |
| ByteRange.WithRange | media_runner/main.py:324-333 | the answer is partial if and only if the range is accepted; a HEAD has its numbers and no body |
| ByteRange.OtherUnitRefused | media_runner/main.py:286-287 | a header with another unit is refused |
| ByteRange.BadSpecRefused | media_runner/main.py:288-301 | a list of ranges or a text that int does not read is refused |
| ByteRange.NoDashReadsAsOpen | media_runner/main.py:291-299 | a number without a dash is read as an open range |
| ByteRange.FetchIsSlice | media_runner/main.py:307-333 | asking for first-last gives that slice, cut at the end of the file |
| ByteRange.ConsecutiveRangesGiveFile | media_runner/main.py:285-333 | consecutive ranges covering a file concatenate to the file |
| PortSpeed.SpeedRoundTrip | alembic/versions/change_port_speed_to_integer.py:66-73 | without strict mode, parsing the text printed for a speed gives the speed back, across both units |
| PortSpeed.StrictRoundTripIff | alembic/versions/change_port_speed_to_integer.py:37-46 | in strict mode it does exactly when the speed is no whole number of gigabits, and fails otherwise |
| PortSpeed.StrictTableRoundTripIff | alembic/versions/change_port_speed_to_integer.py:37-46 | in strict mode the UPDATE of a downgraded table succeeds if and only if no speed is whole gigabits, and then restores them all |
| PortSpeed.StrictAgrees | alembic/versions/change_port_speed_to_integer.py:37-46 | where strict mode does not fail it stores what the other mode stores |
| PortSpeed.ParseOfGbps | alembic/versions/change_port_speed_to_integer.py:37-46 | without strict mode, whole gigabits, with or without the zero fraction, are read as thousands |
| PortSpeed.ParseOfMbps | alembic/versions/change_port_speed_to_integer.py:37-46 | megabits are read as they are |
| PortSpeed.ParseOfDigits | alembic/versions/change_port_speed_to_integer.py:42 | plain digits are taken as Mbps |
| PortSpeed.ParseOfOther | alembic/versions/change_port_speed_to_integer.py:43-45 | a text without unit that is no number becomes NULL |
| PortSpeed.CastOfSigned | alembic/versions/change_port_speed_to_integer.py:40-42 | a sign is read, a negative number wraps around |
| PortSpeed.PrintInjective | alembic/versions/change_port_speed_to_integer.py:66-73 | no two speeds print alike |
| PortSpeed.GigabitsPrintLong | alembic/versions/change_port_speed_to_integer.py:66-73 | for every whole number of gigabits the text has four decimals and is not the short form of the comment |

## Left out

- Routes, permissions, audit logging, Pydantic models, the PHP and Svelte parts, DDL-only migrations and plain backfills: single guards or library calls.
- Agent: `run_forever` with its backoff, the stop flag, event payloads and the timing of heartbeats (a heartbeat is a forced publish at any time); cancelling tasks at shutdown.
- Agent: the receive loop, the hello and the handlers are steps of the machine on values; only the publishing side is a class, because a coroutine that resumes in the middle of a loop has no method form.
- RunnerAgent.Agent.SendReturns: a send whose session ended meanwhile never moves the time of the last push; in the code one whose drain completes before the close does.
- JSON text: envelopes are values, and a frame that is not an object or not JSON is an undecodable one.
- HMAC: the digest is an arbitrary function to hexadecimal strings; that it cannot be forged is not stated.
- SessionCookie.CookieRoundTrip: `int` is any reading of text that gives printed natural numbers back; what else it accepts is left open. The other modules read ASCII digits only.
- TemplateCode.Slugify: lower-casing is that of ASCII; a letter outside it becomes a dash either way, except the few whose lower case is ASCII.
- IdentityCollapse.UpgradeKeepsLogins: equality of logins is exact; a case-insensitive database collation and the widths of the columns are not modelled.
- IdentityCollapse.RoundTripRenames: the external-user columns that the downgrade re-adds to services and servers stay NULL in the code and are not part of the statement; timestamps are not modelled.
- PortSpeed.SpeedRoundTrip: speeds are the non-negative values of a signed 32-bit column, division with the default four extra decimals; of strict mode only the failure on text left after the digits is modelled, not range errors.
- ScriptSubstitution.SequentialIsSimultaneous: octal escapes and group references in a value count as errors of re.sub, though Python accepts some of them; an escaped parameter holds none.
- ScriptSubstitution: the base URL, token, kernel parameter and disk image variables are just entries of the table, and two parameters whose names differ only in case, which the dictionary merges, are one entry.
- TemplateParameters: the content of a generated password (any non-empty text), the form of the generate settings, and the order of the resolved dictionary. The four special keys are constructors of the key type.
- InstallTasks: boot tasks, media release and services turned active on completion. Status changes may also set a task back to pending, which the code never does.
- UpstreamCache: one lookup is followed at a time; the syncs of other lookups count as polls. What the server answers is one version of its list.
- IdentityCollapse.RerunAfterInterruptionIff: a stop inside one table change, such as between a dropped foreign key and its column, is not told apart from its neighbours; those columns play no part in the constraint.
- DaemonSupervisor: the shutdown path, which terminates without the lock, and cancellation of a request in the middle of a spawn; the one-second pause of a restart is any interleaving between its stop and its start.
- Races between database sessions of different processes.
