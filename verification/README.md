# Kid PC Monitor: a verified model

Kid PC Monitor limits the use of a Windows PC.  An agent counts use, warns, locks, and saves its
state; a panel reaches it over a signed text protocol on a connection the agent opens.  This project
models the logic of both and proves what they promise.  `dafny verify dfyconfig.toml` checks all of it.

| module | what it models |
|---|---|
| Text, Utf8, Wrappers | byte strings, decimal numbers, UTF-8, Option and Result |
| Kdl, KdlRoundTrip, KdlParsed, KdlNames, KdlSpelling | the document format: printer, tokenizer and parser, and when they undo each other |
| Frame | length-prefixed frames, read from a stream or a buffer |
| Protocol, FieldText, Envelope, Admission, Exchange | signed requests and responses, which bodies are accepted, and the agent's answer to any body |
| LogTail, Dispatcher, LogsReply | reading a log from its end, decoding it, and fitting it into one frame |
| ParentActions, ParentResults, Reports | what the dispatcher answers to a request, what it has the monitor do, and what a parent is told |
| Policy, Monitor, MonitorRuns, Duties | lock policy and countdown, the monitor's state, and what its whole runs may and must do |
| Calendar, Iso, StateFile, Recovery, Store, CutSave | stamps, saved documents, and what a crash can cost |
| Session, Registry | one connection's callers and loop, and the index of connections |
| RotatingFile | the agent's log file and its backups |

## How it is modelled

* A Go string is a sequence of bytes; it is a Dafny string whose characters are those bytes.  Text is
  valid UTF-8 where the source checks that it is.
* Code that works step by step is a method, in a class where the source has an object, and is proved
  equal to a function; the lemmas are about that function.  The recursive printer appends to its line
  collector, the parser shares a position, the log reader goes backwards block by block.
* The clock is an integer number of microseconds and use is a real number of seconds or minutes.  Each
  public method of the monitor is one step and reads the clock once, and any step may come between a
  parent action and the save that follows it; popups are the exception, and are also modelled as two
  steps with parent actions in between.
* HMAC is any function from key and text to a string shaped like a base64url digest.  Clock readings,
  nonces, the platform's answers, accepted byte counts and failures of file calls are parameters.
* A crash is a number of effects after which a file operation stops; writing and copying pass through a
  damaged state, renaming does not.
* Sessions and handlers run concurrently.  Every interleaving is a sequence of atomic steps, and the
  theorems hold for every sequence.

## What the proofs found

* Node names are printed without quotes.  Among documents whose names hold no quote character, exactly
  those with plain names survive the wire (`KdlNames.DocumentSurvives`); among documents of one word this
  is so for every name (`KdlParsed.NameSurvives`).  Every name the program itself uses is plain.
* A bed time equal to the wake time is announced by the countdown but starts no curfew
  (`Policy.LockAtCountdown`, `Policy.LockThatNeverComes`).
* A countdown can run across a wake time, whose rollover hands back the minutes it counts; exactly when
  it reaches the next wake time (`Policy.RolloverBeforeLock`, `Policy.RolloverInsideCountdown`).
* The access text says "Locked" of an exempt user with a lock set, although nothing ever locks; in every other
  case it tells the truth (`Reports.AccessTold`).
* Extra time granted where no limit was set becomes the limit (`MonitorRuns.ExtensionCanLowerCap`).
* Every save re-stamps the runtime without looking for a rollover.  The counters of the old period start
  over exactly if a loop step comes before the first save by a parent action in the new one
  (`Recovery.FirstStampDecides`, `Recovery.RolloverMissed`).
* A clear of the warnings survives exactly if no popup is on screen or the popup is not shown; otherwise
  closing it marks its threshold and all larger ones again, and none of them is warned at until the next
  clear (`MonitorRuns.PopupUndoesClear`, `MonitorRuns.PopupSwallowsClear`, `MonitorRuns.SwallowedWarning`).
* A change a parent makes while the state files cannot be read is lost: the first thing ever written is
  what a later load reads (`MonitorRuns.UnreadIsNotOverwritten`).
* The check that a host is gone and the report of it are two steps; a registration in between leaves a
  served host last reported gone (`Registry.ServedHostIsNotGone`, `Registry.OvertakenDisconnect`, `Registry.OvertakenFromStart`).
* The log's documentation says that a failed rename only delays a rollover.  It can also lose a backup
  while an older one survives (`RotatingFile.RollLeavesNoGaps`, `RotatingFile.SecondWriteLost`).

## Model

| member | source | states |
|---|---|---|
| Kdl.SerializeInto | go/protocol/kdl.go:104-121 | appends to the collected lines exactly the printed lines of every node and block, whatever was collected before |
| Kdl.ScanString | go/protocol/kdl.go:233-253 | the quoted-string loop consumes up to the closing quote and returns the decoded text, or the first escape error, or an unterminated string |
| Kdl.ScanWord | go/protocol/kdl.go:255-259 | stops at the first delimiter after the start, and not before |
| Kdl.TokenizeText | go/protocol/kdl.go:217-267 | the index-driven tokenizer equals the recursive token specification on every text, errors included |
| Kdl.TokenReader.ReadArgs | go/protocol/kdl.go:304-307 | takes the longest run of values at the shared position and leaves the position after it |
| Kdl.TokenReader.ReadNode | go/protocol/kdl.go:303-319 | reads one node as specified, refuses a block opened at depth 32, and leaves the unread tokens |
| Kdl.TokenReader.ReadNodes | go/protocol/kdl.go:280-325 | reads sibling nodes up to the end or the closing brace as specified, with each of the brace errors, through the shared position |
| Kdl.ParseText | go/protocol/kdl.go:271-328 | the whole parser equals the specification for every byte string, invalid UTF-8 included |
| KdlRoundTrip.BareIsPlain | go/protocol/kdl.go:50-68 | no bare identifier is read back as a keyword or a number |
| KdlRoundTrip.TokenizeNode | go/protocol/kdl.go:104-121 | tokenizing a printed node gives exactly that node's tokens, then those of what follows |
| KdlRoundTrip.ParseNodesTokens | go/protocol/kdl.go:278-325 | parsing the tokens of a document gives back the document and what follows, or the depth error, decided by the depth of its blocks alone |
| KdlRoundTrip.ParseSerialized | go/protocol/kdl.go:98-121 | Parse after Serialize is the identity on every printable document whose blocks open below depth 32, and the depth error on every other one |
| KdlRoundTrip.SerializeInjective | go/protocol/kdl.go:98-102 | two such documents with the same printed text are equal, so a signature over the text covers the document |
| KdlRoundTrip.SerializeValid | go/protocol/kdl.go:70-102 | what is printed from valid text is valid UTF-8, however it is escaped |
| KdlParsed.ParseReadable | go/protocol/kdl.go:271-328 | whatever was received, a successful parse has valid strings, integers the printer can print, and legal depth |
| KdlParsed.ParsedIsCanonical | go/protocol/kdl.go:271-328 | re-printing any received document with plain names and parsing it again changes nothing, however the sender spelt it |
| KdlParsed.TokenLength | go/protocol/kdl.go:217-267 | every string a text can yield is shorter than the text, except one bare word |
| KdlParsed.NameSurvives | go/protocol/kdl.go:104-121 | a document of one word survives printing and parsing if and only if the word is a plain name, quotes or not |
| KdlNames.NameWeight | go/protocol/kdl.go:217-267 | however a name without quotes falls apart into tokens in front of other text, they weigh no more than the name, and as much only if it comes back as itself |
| KdlNames.NodesWithin | go/protocol/kdl.go:104-121 | the same for any printed nodes: their tokens weigh no more than the nodes, and as much only if every name comes back as itself |
| KdlNames.ParseNodesWeight | go/protocol/kdl.go:278-325 | a successful parse loses no weight of the tokens it consumes |
| KdlNames.DocumentSurvives | go/protocol/kdl.go:98-121 | a document without quotes in its names survives printing and parsing if and only if all its names are plain, its values printable and its blocks shallow |
| KdlParsed.EscapeIsChained | src/kid_pc_monitor/agent_protocol.py:162-164 | five successive replacements over the whole text equal the single pass of escape |
| KdlSpelling.SeparatorStands | go/protocol/kdl.go:217-267 | wherever a text ends outside a string, a line feed, carriage return or semicolon after it ends a node, a blank only parts words, and a brace is a brace, whatever follows |
| KdlSpelling.LetterEscape | go/protocol/kdl.go:146-187 | each one-letter escape reads as its code point, and no other letter is an escape |
| KdlSpelling.EscapedCodePoint | go/protocol/kdl.go:146-187 | an escape by code point reads as the one character with that code point, and is refused for anything but a Unicode scalar value |
| Utf8.EncodeIs | go/protocol/kdl.go:179-183 | the encoding of a scalar value is the one UTF-8 character whose bits make up that value |
| FieldText.BareNumber | go/protocol/kdl.go:189-207 | a bare word is read as a number if and only if it is a numeral of 64 bits with at most one sign, and then as its value |
| Frame.FrameLengthIsValue | go/protocol/frame.go:43-56 | the test on trimmed digits equals comparing the unbounded decimal value with the cap |
| Frame.ByteStream.ReadHead | go/protocol/frame.go:96-118 | collects the length prefix, with each refusal, and consumes exactly the bytes it read |
| Frame.ByteStream.ReadFrame | go/protocol/frame.go:95-135 | returns the next frame's body and leaves the stream just after it, or the matching error |
| Frame.InspectFrame | go/protocol/frame.go:60-91 | the buffer scan classifies every buffer as specified |
| Frame.TakeEncoded | go/protocol/frame.go:25-27 | an encoded valid body within the cap is read back whole and nothing after it is touched |
| Frame.TakeOversized | go/protocol/frame.go:43-56 | an encoded body over the cap is refused, as too large or by the length of its prefix |
| Frame.TakeAllEncoded | go/protocol/frame.go:95-135 | any sequence of encoded frames is read back as the same sequence of bodies |
| Frame.PrefixIncomplete | go/protocol/frame.go:60-91 | every non-empty proper prefix of a frame is incomplete: never refused, never complete |
| Frame.ReadersAgree | go/protocol/frame.go:60-135 | buffer inspection and stream reading accept the same frames with the same rest, for prefixes both can hold |
| Protocol.SplitAuth | go/protocol/protocol.go:97-107 | takes out the first auth node and keeps every other node, later auth nodes included, in order |
| Protocol.LastFields | go/protocol/protocol.go:118-125 | maps each name that occurs to the first argument of its last node, and no other name |
| Protocol.FieldsAgree | go/protocol/protocol.go:244-356 | fields other than auth read the same whether one or all auth nodes are dropped |
| Protocol.ChildMap | go/protocol/kdl.go:41-48 | names every child, the last duplicate winning |
| Protocol.PeekNodes | go/protocol/kdl.go:330-346 | the version peeked from any document is a supported one |
| Protocol.AnswerVersion | go/protocol/server.go:13-45 | every reply is signed under a supported version, so signing it cannot fail |
| FieldText.NumberRead | go/protocol/compat.go:108-131 | a field is taken for a number if and only if it is one, or a numeral with white space around it, within 2^53; otherwise it is an invalid value |
| Admission.FrameAccepted | go/protocol/protocol.go:131-168 | every list of nodes is accepted if and only if its first auth node carries the signature of all other nodes as printed, its timestamp is within 60 s and its nonce is 32 hex digits or more; the rest are refused with the code of the first thing wrong |
| Admission.RequestAccepted | go/protocol/protocol.go:244-356 | every body at all is accepted as a request if and only if it parses, speaks this version, is authentic and on time, and asks this agent for something; then the request is what the fields say |
| Admission.ResponseAccepted | go/protocol/protocol.go:476-552 | every body at all is accepted as a response if and only if it parses, speaks the version expected, is authentic and on time, and names the agent expected |
| Envelope.SplitSigned | go/protocol/protocol.go:97-107 | splitting a signed frame gives back exactly the signed nodes and the auth node |
| Envelope.VerifySigned | go/protocol/protocol.go:131-168 | the printed frame parses, splits and re-prints to the text that was signed; it is accepted, or refused with the given code, exactly by nonce form, equality of signatures and clock window |
| Envelope.RequestFields | go/protocol/protocol.go:191-226 | every field of a built request looks up to the value that was put in |
| Envelope.CheckHonest | go/protocol/protocol.go:244-356 | after authentication a request passes if and only if action, operands, name and tail satisfy the stated checks, and then all its fields are as sent |
| Envelope.RequestRoundTrip | go/protocol/protocol.go:191-356 | ParseRequest after BuildRequest succeeds if and only if nonce, window and checks hold, and returns every field as sent, digit strings as strings |
| Exchange.RequestErrorGood | go/protocol/protocol.go:244-356 | for every body the id and message of a refusal are text that can be sent back |
| Exchange.ParsedRequestGood | go/protocol/protocol.go:244-356 | whatever the body, a request that passes has a known action, checked operands, tail and name, valid text and 64-bit integers, and if it names anyone it names this agent |
| Exchange.AnswerPayload | go/protocol/server.go:13-45 | for every body the chosen content is sendable and disturbs none of the envelope's own fields, given a dispatcher that answers good requests sendably |
| Exchange.ResponseRoundTrip | go/protocol/protocol.go:402-552 | ParseResponse after SignResponse returns exactly what the signed content carries, under the same secret and name within the window |
| Exchange.EveryBodyAnswered | go/protocol/server.go:13-45 | for every body at all, and any dispatcher that answers good requests sendably, a panel with the secret accepts the reply; a refused body reads as a failure with its own code, message and id, an accepted one as what the dispatcher made of that request |
| Exchange.OKCarried | go/protocol/protocol.go:358-366 | an ok reply reads as status ok with that result and nothing else |
| Exchange.ErrorCarried | go/protocol/protocol.go:369-374 | an error reply reads as failure with that code and message and nothing else |
| Exchange.SettingsCarried | go/protocol/protocol.go:476-552 | a settings block reads as ok with its children as a map |
| Exchange.HonestExchange | go/protocol/server.go:13-45 | a panel that sends an acceptable request reads exactly what the dispatcher returns for that very request: its content, or a failure with the code and message of its refusal or error |
| LogTail.SubpartIsMaximal | go/monitor/logtail.go:101-132 | the length returned for an ill-formed start is that of the maximal subpart and of no other prefix |
| LogTail.InvalidPrefixLen | go/monitor/logtail.go:103-132 | the byte scan returns that length |
| LogTail.PiecesPartition | go/monitor/logtail.go:83-99 | the pieces decoded, joined, are the input: every byte is consumed exactly once |
| LogTail.PieceInPlace | go/monitor/logtail.go:83-99 | each piece stands where the ones before it end and is the next character or else the maximal subpart there |
| LogTail.DecodedPiece | go/monitor/logtail.go:83-99 | each piece decodes on its own: a character to itself, anything else to the character with code point FFFD |
| LogTail.LogLinesAre | go/monitor/logtail.go:51-58 | the lines of a log with some blank ones after them, joined by newlines, are the log; none holds a newline and the last is not blank |
| LogTail.DecodeValid | go/monitor/logtail.go:83-99 | decoding gives well-formed UTF-8 and is the identity on well-formed input |
| LogTail.Decode | go/monitor/logtail.go:83-99 | the decoding loop computes that decoding |
| LogTail.SplitAppend | go/monitor/logtail.go:51-58 | only the first line of a later stretch can change when an earlier stretch is put before it |
| LogTail.CollectParts | go/monitor/logtail.go:59-66 | what one block adds is what the lines seen so far would give, blank tail dropped and at most tail + 1 kept |
| LogTail.DecodeNewestFirst | go/monitor/logtail.go:73-76 | the last loop turns newest-first lines into decoded lines in file order |
| LogTail.ReadLogTail | go/monitor/logtail.go:23-78 | for every content, block size and tail: the last lines of the whole file split, blank tail dropped; truncated if and only if there are more |
| Dispatcher.SerializedSize | go/dispatcher/dispatcher.go:307-325 | the size computed node by node is that of the printed text |
| Dispatcher.EstimateSplits | go/dispatcher/dispatcher.go:310-325 | the response estimate is the empty block's plus a cost per line, and one byte less when truncated turns true |
| Dispatcher.FitLogLines | go/dispatcher/dispatcher.go:331-349 | the single pass over line costs returns the same lines and flag as re-printing the response after every dropped line |
| Dispatcher.FitIsLongest | go/dispatcher/dispatcher.go:327-349 | what is kept is the longest suffix whose estimate is within 64512 bytes, and the flag says whether anything is missing |
| Dispatcher.ReplySize | go/protocol/protocol.go:402-426 | the exact size of a signed reply in terms of the estimate, hostname, id, timestamp and nonce |
| Dispatcher.ReplyOverhead | go/dispatcher/dispatcher.go:307-325 | with a nonce of 32 digits the signed reply exceeds the estimate by at most 78 bytes plus what hostname and id take |
| LogsReply.LogsRead | go/protocol/protocol.go:526-541 | reading back a logs block gives its path, flag and lines |
| LogsReply.DeliveredLines | go/dispatcher/dispatcher.go:351-371 | the lines sent are the last of the log, decoded, as many as are wanted or fit in 64512 bytes, and the flag is true exactly if any line of the log is missing |
| LogsReply.ReplyFitsFrame | go/dispatcher/dispatcher.go:307-371 | within the stated margin every signed get_logs reply is within the frame cap and read back whole by the panel |
| LogsReply.ReplyFitsExactly | go/dispatcher/dispatcher.go:307-371 | in general a get_logs reply comes through the framing if and only if its stated size is within the cap |
| LogsReply.LongNameDoesNotFit | go/dispatcher/dispatcher.go:307-325 | no get_logs of an agent whose hostname is as long as a frame gets through |
| LogsReply.LogsDelivered | go/dispatcher/dispatcher.go:351-371 | from the panel's request to what it reads: authenticated, framed, the log's last lines, as many as are wanted or fit, with a truthful flag |
| ParentActions.DispatchGood | go/dispatcher/dispatcher.go:376-406 | for every request that can reach it, whatever the dispatcher answers can be sent |
| ParentActions.AgentAnswersEveryBody | go/dispatcher/dispatcher.go:72-74 | the agent's own dispatcher in any state: for every body the reply is accepted by a panel with the secret; a refused body reads as its refusal, any other as what the dispatcher made of it |
| ParentActions.HandlerServesLogs | go/dispatcher/dispatcher.go:351-371 | the agent's own dispatcher answers get_logs as the theorem on delivered logs asks |
| ParentActions.OnlyWritesAct | go/dispatcher/dispatcher.go:376-406 | a refused request has no effect, and only the actions that must name their agent have any |
| ParentActions.OnlyNamedRequestsAct | go/dispatcher/dispatcher.go:376-406 | whatever is received, nothing happens unless it is signed with the secret, sent within 60 s, and names this agent |
| ParentActions.SavedOnceAtTheEnd | go/dispatcher/dispatcher.go:200-279 | the monitor is changed by valid actions only, and if at all, the state is saved exactly once, at the end |
| ParentActions.SetReadsBack | go/dispatcher/dispatcher.go:200-242 | a set is accepted if and only if the variable is writable and takes the value, and then answers with exactly what reading the variable gives afterwards |
| ParentActions.TimesAreTaken | go/dispatcher/dispatcher.go:98-108 | every time of day sent as HH:MM is taken as that time |
| ParentActions.ClearReadsBack | go/dispatcher/dispatcher.go:248-266 | a clear is accepted if and only if the variable is clearable; then it reads as nothing, zero or false, and a cleared bed time leaves no warning marked |
| ParentActions.ExtendAdds | go/dispatcher/dispatcher.go:268-279 | an extension is accepted if and only if it is from one minute to a day, and then adds its minutes and lifts a manual lock |
| ParentActions.SetFromPanel | go/dispatcher/dispatcher.go:200-242 | what a panel reads in the reply to its set is what the variable then is |
| ParentActions.NothingLeftPending | go/dispatcher/dispatcher.go:200-279 | a request served without interruption leaves no change of the monitor unsaved |
| ParentResults.LockLocks | go/dispatcher/dispatcher.go:394-397 | a lock is always accepted and answered locked; the lock is in force at once, so every moment of a monitored user is a lock window, and nothing else changes |
| ParentResults.UnlockUnlocks | go/dispatcher/dispatcher.go:398-401 | an unlock is always accepted and answered unlocked; then only the night or the allowance locks, and nothing else changes |
| ParentResults.LockStandsUntilLifted | go/dispatcher/dispatcher.go:394-397 | after a lock, whatever happens until it is lifted, time is granted or a period begins, every loop step that finds the session open asks the platform to lock |
| ParentResults.YesNoRead | go/dispatcher/dispatcher.go:111-128 | a value is taken for yes or no if and only if it is one, a 1 or 0, or one of the words in any case with white space around it |
| ParentResults.LimitIsSet | go/dispatcher/dispatcher.go:207-216 | a daily limit is accepted if and only if it is a number from 1 to 1440; then it is the limit and nothing else changes |
| ParentResults.LockIsSet | go/dispatcher/dispatcher.go:230-239 | manual_lock takes exactly what reads as yes or no, and becomes that; nothing else changes |
| ParentResults.BedTimeIsSet | go/dispatcher/dispatcher.go:217-228 | a bed time is accepted if and only if it is H:MM or HH:MM; then it is the bed time and nothing else changes |
| ParentResults.WakeTimeIsSet | go/monitor/monitor.go:620-635 | a wake time likewise; moved from after now to before, it begins a new period with no use, lock, extension or warning left |
| ParentResults.OthersAreReadOnly | go/dispatcher/dispatcher.go:200-204 | setting anything else is forbidden |
| ParentResults.ClearTakesAway | go/dispatcher/dispatcher.go:248-266 | a clear takes away exactly what it names, and anything but a limit, bed time, lock or extensions cannot be cleared |
| ParentResults.TimeIsGranted | go/monitor/monitor.go:649-656 | an extension is accepted if and only if it is a number from 1 to 1440; it adds that many minutes, lifts a lock, forgets the warnings, and changes nothing else |
| ParentResults.MessageIsShown | go/dispatcher/dispatcher.go:281-290 | a message is shown word for word if and only if it is text that is not blank, and the answer says whether it was shown |
| ParentResults.ShutdownIsAsked | go/dispatcher/dispatcher.go:292-305 | a shutdown is asked for exactly with a number of seconds that is not negative, 60 if none is given |
| ParentResults.FromPanel | go/protocol/server.go:13-45 | whatever acceptable request a panel sends, it reads what this dispatcher made of it |
| ParentResults.LockFromPanel | go/dispatcher/dispatcher.go:394-397 | a panel that locks reads locked, and from that moment a monitored user must be locked out |
| Reports.NamedExactly | go/dispatcher/dispatcher.go:135-179 | a name stands for a variable if and only if it is its own |
| Reports.GetAnswers | go/dispatcher/dispatcher.go:181-198 | a get answers with the value of the variable and has no effect |
| Reports.SettingsRead | go/dispatcher/dispatcher.go:181-198 | from the settings block a panel reads every variable under its own name |
| Reports.EnforcementTold | go/policy/policy.go:244-266 | enforcement is told if and only if the night or a used-up allowance locks a monitored user, and with the right reason |
| Reports.AccessTold | go/policy/policy.go:269-282 | the access text says locked truthfully, if and only if it is not about an exempt user with a lock set |
| Reports.RemainingTold | go/dispatcher/dispatcher.go:162-166 | the remaining time is told within half a minute, ties to even, and nothing is told if and only if nothing counts down |
| Reports.StoredTold | go/dispatcher/dispatcher.go:135-179 | use is told in whole seconds begun, the extension in seconds, times so that they read back, and null for what is not set |
| Policy.CurfewIsInterval | go/policy/policy.go:142-151 | the test on minutes of the day is membership in a nightly interval from bed time to the next wake time; none if they are equal |
| Policy.PeriodIsInterval | go/policy/policy.go:131-137 | a period date names exactly the moments from its wake time to the next day's |
| Policy.PeriodOfWholeSecond | go/policy/policy.go:131-137 | cutting a moment to its second never changes its period |
| Policy.LockCauses | go/policy/policy.go:196-214 | the decision is to lock if and only if the user is monitored and a lock is set, it is night, or the allowance is used up |
| Policy.ReasonGiven | go/policy/policy.go:196-214 | the reason is the lock before the night before the allowance, and at night whether today's wake time is still to come |
| Policy.CountdownExists | go/policy/policy.go:218-241 | there is a countdown if and only if the user is monitored and has a bed time, an allowance or a lock |
| Policy.NoLockBeforeCountdown | go/policy/policy.go:196-241 | strictly before the announced time, with use growing no faster than the clock, nothing locks |
| Policy.LockAtCountdown | go/policy/policy.go:196-241 | at the announced time with all of it used the PC locks, if and only if the countdown is not for a bed time equal to the wake time |
| Policy.CountdownWithinPeriod | go/policy/policy.go:218-241 | with a bed time that starts a curfew no rollover falls before the announced lock |
| Policy.PeriodEndsAtWake | go/policy/policy.go:131-137 | a later moment is in another period if and only if the next wake time has come |
| Policy.RolloverBeforeLock | go/policy/policy.go:218-241 | for every countdown, a rollover has come by the announced time if and only if it reaches the next wake time, which is so if and only if nothing locks already, no bed time starts a curfew first, and the allowance lasts that long |
| Monitor.Control.constructor | go/monitor/monitor.go:108-153 | starts with no tick, no save, no warning sent and the current period, on what was loaded, or on the defaults with the load marked as failed |
| Monitor.Control.ResetRuntimeIfNeeded | go/monitor/monitor.go:323-332 | starts the counters over exactly when the last stamp is from another period |
| Monitor.WindowIs | go/monitor/monitor.go:286-311 | in its own fields, a lock window is a monitored user with a lock set, at night, or with limit and extensions used up in seconds |
| Monitor.TickCounts | go/monitor/monitor.go:336-360 | a tick adds exactly the time since the last one if the session is active, nothing locks, and under 60 s have passed in one period; it begins a gap if the session is in use and ends it otherwise |
| Monitor.StepAsks | go/monitor/monitor.go:408-436 | a loop step asks for a lock if and only if it leaves a cause for one and the session is open, and notes it if and only if it worked |
| Monitor.Control.TickAccumulator | go/monitor/monitor.go:336-360 | new state after a tick: rollover, then a gap under 60 s counted to the microsecond when the session is active and nothing calls for a lock; a gap is open afterwards if and only if so |
| Monitor.Control.CheckAndSendWarnings | go/monitor/monitor.go:362-406 | raises the smallest due threshold not yet sent, and marks it and all larger ones only if it was shown |
| Monitor.Control.MarkLarger | go/monitor/monitor.go:395-404 | marks exactly the thresholds from the given one upwards |
| Monitor.Control.EnforceLockWindow | go/monitor/monitor.go:424-436 | asks for a lock if and only if a cause for one is there and the session is not locked, and notes it only if it worked |
| Monitor.Control.PersistIfDue | go/monitor/monitor.go:438-451 | saves when a minute has passed since the last periodic save, or the clock went back, and counts as done even if the save was refused |
| Monitor.Control.SaveState | go/monitor/monitor.go:231-246 | re-stamps the runtime and saves; after a failed load it loads again first, and saves nothing while that fails |
| Monitor.Control.LoadState | go/monitor/monitor.go:196-222 | takes over what was loaded, or keeps the memory and marks the load as failed |
| Monitor.LoadedStep | go/monitor/monitor.go:473-480 | once a load has worked, a step does what the run theorems say and saves exactly when due |
| Monitor.Control.Step | go/monitor/monitor.go:473-480 | one iteration is tick, warnings, enforcement and saving, in that order |
| Monitor.Control.SetWakeTime | go/monitor/monitor.go:620-635 | starts over exactly if the new wake time puts the present into a later period |
| Monitor.Control.ExtendTime | go/monitor/monitor.go:649-656 | adds the minutes, lifts the manual lock and clears the warnings |
| Monitor.Control.EngageManualLock | go/monitor/monitor.go:684-690 | sets the manual lock, and the screen lock if the platform call works |
| MonitorRuns.RecordHolds | go/monitor/monitor.go:323-360 | each step keeps the credits disjoint, under a minute, inside the period and outside lock windows |
| MonitorRuns.UseWithinWallClock | go/monitor/monitor.go:323-360 | in every run the counted use since the last start-over is the sum of such intervals and never exceeds wall time |
| MonitorRuns.CapOvershoot | go/monitor/monitor.go:286-360 | a run under cap + 60 seconds stays there as long as no parent action lowers the cap |
| MonitorRuns.ExtensionCanLowerCap | go/state/state.go:28-39 | granting time lowers the cap if and only if no limit and no extension were set: the grant becomes the limit |
| MonitorRuns.SentUpwardClosed | go/monitor/monitor.go:362-406 | in every interleaving, popups on screen during parent actions included, the sent warnings are upward closed |
| MonitorRuns.PopupUndoesClear | go/monitor/monitor.go:362-406 | a parent action that clears the warnings leaves them cleared if and only if no popup is on screen or the one that is was not shown |
| MonitorRuns.PopupSwallowsClear | go/monitor/monitor.go:362-406 | after a clear that a shown popup undid, whatever follows up to the next clear: no warning at or above the popup's threshold is shown |
| MonitorRuns.SwallowedWarning | go/monitor/monitor.go:649-656 | an instance: with 14 minutes left after an extension the warning for 15 is due if and only if the popup for 5 was not shown |
| MonitorRuns.LoadedRun | go/monitor/monitor.go:231-246 | once a load has worked, loads made later change nothing, and what was written stays the beginning of what is written |
| MonitorRuns.UnreadIsNotOverwritten | go/monitor/monitor.go:231-246 | after a failed load nothing is written until one works, and then first of all exactly what it read |
| MonitorRuns.WarningsShownInOrder | go/monitor/monitor.go:362-406 | with atomic steps, between two clears at most four warnings are shown, for strictly shorter times |
| Duties.NewPeriodIs | go/state/state.go:43-61 | the counters start over if and only if a wake time has come since the last stamp, or the wake time is moved from after now to before |
| Duties.UseIsActiveTime | go/monitor/monitor.go:336-360 | in every run the use is exactly the sum of all gaps under 60 s between successive loop steps that find the session active and nothing to lock it for, in one period |
| Duties.UseKeepsPace | go/monitor/monitor.go:336-360 | a session in use all the time is charged exactly the time that passes |
| Duties.LocksWhenDue | go/monitor/monitor.go:408-436 | in every run the platform is asked to lock exactly by a parent's lock and by loop steps that leave a cause and find the session open |
| Duties.LockedExactly | go/monitor/monitor.go:408-436 | the monitor takes the PC for locked if and only if a lock that was due has worked |
| Duties.ManualLockExactly | go/monitor/monitor.go:684-697 | a parent's lock is in force exactly from when it is set until it is lifted, time is granted or a period begins |
| Duties.LockHolds | go/monitor/monitor.go:684-697 | while it is, every moment of a monitored user is a lock window and every loop step that finds the session open asks for a lock |
| Duties.ExtensionIsGranted | go/monitor/monitor.go:649-664 | the extension is exactly what was granted since it was last cleared or a period began |
| Duties.OnlyShownAreMarked | go/monitor/monitor.go:362-406 | in every run the warnings marked are those shown since the last clear and all larger ones |
| Duties.WarnsExactly | go/monitor/monitor.go:362-406 | a loop step warns exactly for the smallest threshold reached, unless one as urgent was shown since the last clear |
| Duties.SavesEachMinute | go/monitor/monitor.go:438-451 | a loop step saves if and only if none has in the last 60 s |
| Calendar.NextDayNumber | go/state/iso.go:49-68 | the next calendar day has the next day number, leap years included |
| Calendar.DayNumberOf | go/state/iso.go:49-68 | the date of a day number has that number |
| Calendar.SameDateSameDay | go/policy/policy.go:37-54 | dates are equal, and one is before the other, if and only if the days are |
| Iso.IsoReader.Digits | go/state/iso.go:23-37 | consumes exactly n digits and returns their value, or fails without moving |
| Iso.IsoReader.Eat | go/state/iso.go:39-45 | consumes the character exactly if it is next |
| Iso.IsoReader.Date | go/state/iso.go:53-68 | reads a date as specified and refuses days the month does not have |
| Iso.IsoReader.Fraction | go/state/iso.go:112-131 | reads a fraction, keeping microseconds, and refuses an empty one |
| Iso.IsoReader.TimeOfClock | go/state/iso.go:100-133 | reads hours and optional minutes, seconds and fraction, or fails |
| Iso.IsoReader.Offset | go/state/iso.go:148-177 | accepts and skips an offset suffix, or refuses |
| Iso.ReadDatetime | go/state/iso.go:88-145 | the position-driven reader, range checks included, equals the specification on every text |
| Iso.StampRoundTrip | go/state/iso.go:88-190 | a saved stamp reads back as its whole second, and a full rendering as the moment itself, for every moment up to year 9999 |
| Iso.OffsetIsDropped | go/state/iso.go:147-177 | a stamp with any offset, and either separator, reads as its clock reading |
| StateFile.TimeRoundTrip | go/policy/policy.go:83-97 | every time of day reads back from its HH:MM text |
| FieldText.TimeRead | go/policy/policy.go:85-97 | a text is taken for a time of day if and only if it is H:MM or HH:MM of an hour and minute that exist, with white space around it |
| StateFile.Round3Close | go/state/state.go:64-70 | rounding to three decimals moves a value by at most 0.0005 and never below zero |
| StateFile.DailyRoundTrip | go/state/state.go:84-153 | settings load back exactly |
| StateFile.LeftOut | go/state/state.go:122-199 | what a document leaves out, or leaves empty, is seven o'clock, no bed time, no limit, nothing used, no lock and no extension |
| StateFile.RuntimeRoundTrip | go/state/state.go:95-199 | runtime state loads back with the stamp cut to seconds and the use rounded, and nothing else changed |
| StateFile.StoredPeriod | go/state/state.go:41-45 | the stored stamp is in the same usage period as the original |
| Recovery.StepSafe | go/monitor/monitor.go:438-480 | each loop step keeps under a minute of use unsaved |
| Recovery.ChangeSafe | go/monitor/monitor.go:604-697 | a parent action leaves its change pending and disturbs nothing else that is certain |
| Recovery.SaveSafe | go/monitor/monitor.go:231-253 | the save after it leaves nothing pending |
| Recovery.CrashLosesUnderAMinute | go/state/store.go:222-272 | after any run, unless a new wake time is unsaved, a crash and a load in the period memory belongs to lose under 60 s of use up to rounding; and no setting, lock or extension if no parent action is unsaved |
| CutSave.CutFiles | go/state/store.go:129-180 | a save cut off anywhere leaves either file with what it held or what was being saved |
| CutSave.CrashInsideSave | go/state/store.go:129-180 | a crash inside any save of any run, after any of its effects: both files load, and in the same period under 120 s of use are lost up to rounding, and no setting, lock or extension if no parent action was unsaved |
| Recovery.FirstStampDecides | go/state/store.go:173-180 | in any run of a new period the old counters start over if and only if a loop step comes before the first save by a parent action |
| Recovery.RolloverMissed | go/state/store.go:173-180 | a concrete run in which a new day starts with the old day's hour used up |
| Store.WriteStates | go/state/store.go:129-149 | a write that runs to its end leaves the new value, the previous good one as backup, and no temporary file |
| Store.ManagedFile.KeepBackup | go/state/store.go:121-127 | copying is torn: cut off, it leaves the backup untouched or damaged |
| Store.ManagedFile.WriteJson | go/state/store.go:129-149 | cut off after any number of effects, the three files are in the corresponding intermediate state; it reports success exactly if it ran to the end |
| Store.ManagedFile.ReadValidated | go/state/store.go:195-220 | likewise for reading with quarantine and restore, either of which may also fail on its own, returning the value of the file or else of its backup |
| Store.ManagedFile.RestoreBackup | go/state/store.go:121-127 | copying the backup back ends done, refused or torn |
| Store.StateStore.Save | go/state/store.go:173-180 | re-stamps, then writes both files in order, stopping where the effects run out |
| Store.StateStore.Load | go/state/store.go:229-272 | reads both files; derives and saves what is missing; returns what it settled on, the runtime started over if it is from an earlier period |
| Store.LoadSettles | go/state/store.go:229-272 | after a completed load from any files, the next load settles on the same settings; derived settings leave both files recoverable, with the legacy runtime if there is one |
| Store.WriteRecoverable | go/state/store.go:129-149 | a write cut off anywhere keeps the file recoverable, and holds the old or the new value by whether the rename was reached |
| Store.LoadRecoverable | go/state/store.go:195-220 | a read cut off anywhere keeps the file recoverable and its value unchanged |
| Store.LoadSetsAside | go/state/store.go:195-220 | a completed load restores what it can from the backup and sets aside what is damaged where it looked |
| Store.NeverDefaults | go/state/store.go:222-272 | from recoverable files, no sequence of cut-off saves and loads, nor the loss of a file with a whole backup, makes a load fall back to defaults |
| Store.SaveMakesRecoverable | go/state/store.go:173-180 | a completed save makes both files recoverable, whatever was there before, and loads back |
| Store.FirstSaveIsEnough | go/state/store.go:173-272 | from the first completed save on, over any files, no load falls back to defaults |
| Store.LoadsLastSave | go/state/store.go:173-272 | without outside damage the files hold, and a load settles on, the last completed save of each file or the one in progress |
| Store.LosingAFileCostsOneSave | go/state/store.go:129-149 | losing a file after a completed save brings back the value before that save |
| Session.RunHolds | go/panel/reverse/session.go:73-177 | every interleaving keeps the wire, phase, outcome and sent-frame invariants |
| Session.RepliesReachTheirCallers | go/panel/reverse/session.go:73-127 | a caller only ever gets the agent's reply to its own request, and status comes only from a refresh, though nothing matches replies to requests |
| Session.OneInFlight | go/panel/reverse/session.go:102-177 | at most one frame is in flight, and none between exchanges |
| Session.SentAtMostOnce | go/panel/reverse/session.go:102-127 | no request is sent twice |
| Session.AbandonedIsNeverSent | go/panel/reverse/session.go:71-98 | a request given up before the loop starts writing it is never sent, whatever follows |
| Session.FailuresAreReal | go/panel/reverse/session.go:71-127 | a caller is told of a failed exchange only if it ended the loop, of a closed session only if it is closed, and still takes an answer that has come |
| Session.NobodyIsForgotten | go/panel/reverse/session.go:71-127 | in every interleaving whoever waits has a result or is being served; between exchanges and after the end nobody waits for nothing |
| Session.CanServe | go/panel/reverse/session.go:102-127 | whenever the loop is between exchanges it can serve any request on offer, and the caller then gets the answer to it |
| Registry.Registry.Register | go/panel/reverse/server.go:355-373 | the delete-while-ranging loop and the two insertions leave exactly the specified indexes, and name the session displaced |
| Registry.Registry.Unregister | go/panel/reverse/server.go:375-384 | removes the entries that are this session's own and no other |
| Registry.IndexesNameTheNewest | go/panel/reverse/server.go:355-384 | in every interleaving a host's entry is the last session to register under it while registered; an address's entry is the last from it if it is also its host's entry |
| Registry.OnlyReplacedAreClosed | go/panel/reverse/server.go:355-373 | a registered session is closed, or about to be, if and only if another holds its name |
| Registry.EveryHostSeenOff | go/panel/reverse/server.go:340-414 | once all handlers finish the indexes are empty, every session is closed and had its status reported, and the last report of every host that registered is that it is gone |
| Registry.ServedHostIsNotGone | go/panel/reverse/server.go:386-414 | if no registration overtakes a pending disconnect, a host being served was last reported with a status, never gone |
| Registry.OvertakenDisconnect | go/panel/reverse/server.go:398-414 | if one does, handlers can go on so that the served host was last reported gone |
| Registry.OvertakenFromStart | go/panel/reverse/server.go:340-414 | this happens from the start, for any two sessions of one host |
| RotatingFile.RotatingFile.constructor | go/agent/logging.go:84-104 | opens the existing log and takes its size, or creates it |
| RotatingFile.RotatingFile.OpenFile | go/agent/logging.go:92-104 | the same, for any of the opens; a failed one leaves the file closed |
| RotatingFile.RotatingFile.Move | go/agent/logging.go:132-141 | one remove and rename, either of which may fail |
| RotatingFile.RotatingFile.Rollover | go/agent/logging.go:129-145 | the loop over the backups leaves the directory as specified under any failures |
| RotatingFile.RotatingFile.Write | go/agent/logging.go:106-127 | new directory and size, and the bytes reported, under any failures and any accepted length |
| RotatingFile.RollsExactlyWhenFull | go/agent/logging.go:106-145 | a write rolls over if and only if it would fill a log that is not empty; otherwise it appends and touches nothing else, and when nothing fails the backups move up by one |
| RotatingFile.RolledMoves | go/agent/logging.go:129-145 | says of every file where it is after a rollover, and which are lost |
| RotatingFile.RollLeavesNoGaps | go/agent/logging.go:129-145 | a rollover leaves no gap in what is kept if and only if everything it loses is older than everything it leaves |
| RotatingFile.FailedRenameLosesTheMiddle | go/agent/logging.go:129-145 | one failed rename of the first backup loses it while an older one survives |
| RotatingFile.QuietLoss | go/agent/logging.go:129-145 | with no failed remove or rename only the last backup is lost, and only to make room |
| RotatingFile.SecondWriteLost | go/agent/logging.go:106-145 | from an empty directory, four writes with one failed rename leave the first, third and fourth |
| RotatingFile.StepRecords | go/agent/logging.go:106-127 | what was written is exactly what Write reported as accepted |
| RotatingFile.ExistingHolds | go/agent/logging.go:84-104 | whatever log and backups are found, they start as ordered runs without gaps, one write a file |
| RotatingFile.WholeWritesInOrder | go/agent/logging.go:106-145 | after any run on any directory, whatever failed, every file is a run of whole writes, disjoint and in order |
| RotatingFile.FilesAreTheLastWrites | go/agent/logging.go:106-145 | on any directory, with no failed remove or rename, the backups and the log end to end are a suffix of what was found and everything written since |
| RotatingFile.LogWithinLimit | go/agent/logging.go:106-127 | after a successful write the log is below its limit or holds that write alone, if and only if no due rollover failed to rename the log |

## Left out

- HMAC, base64 and key derivation: a function parameter; that different texts have different signatures is not claimed.
- KdlNames.DocumentSurvives: says nothing of documents with a quote character in a name, except those of one word; a string token may run from such a name into the next.
- Kdl.ParseText: error messages are collapsed to one code per message, without the text quoted in it.
- LogsReply.ReplyFitsFrame: assumes 32-digit nonces, at most 946 bytes of printed hostname and id, and a path whose empty block fits the budget; which other replies fit is said by `LogsReply.ReplyFitsExactly`.
- Frame.ReadersAgree: excludes length prefixes of more than 65536 characters, which only the stream reader refuses.
- LogTail.ReadLogTail: the file does not change while it is read, and read errors are not modelled.
- ParentActions.AgentAnswersEveryBody: descriptions of actions and variables are a parameter, numbers read of the agent are taken to fit 64 bits, and what the platform does with a popup or a shutdown is not modelled.
- Users the monitor exempts, beyond a flag; lock-state observation through the platform, beyond its answer to each step.
- MonitorRuns.UseWithinWallClock: clocks do not go back within a run; the tick and save rules for a clock that does are in the methods.
- Recovery.CrashLosesUnderAMinute: says nothing of a crash while a new wake time is unsaved, as the periods before and after are then cut differently; the load the run starts from works (failed loads are in MonitorRuns).
- Store.StateStore.Load: what is derived from the legacy file and the machine-wide directory is a parameter; reading those files is not modelled.
- Store.ManagedFile.ReadValidated: quarantined files vanish instead of being kept under another name, and the list of problems is not kept.
- JSON text and hand-edited files that hold numbers as strings: a file is a document its loader accepts, or damaged.
- Iso.StampRoundTrip: years up to 9999, which is what four digits can hold.
- Rounding in floating-point arithmetic: use and allowance are reals, except for the three decimals of a save.
- Session and Registry are state machines on values: goroutines, channels, timers and the mutex appear as atomic steps, and the fields of a session as components of the state.
- Session.RunHolds: the identifying exchange before a session is registered; a refresh answered with anything but settings is an exchange that fails, and ends the session.
- Closing all sessions at shutdown, TLS, sockets, discovery and the HTTP panel.
- RotatingFile.RotatingFile.Rollover: other processes that create or delete the log's files in between, and a failing Stat.
- Log levels, the format of log lines, and the wording of popups.
