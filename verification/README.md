# Verification of the web server and the concurrency examples

This project models the parts of the repository that hold its hardest arguments, and proves what they keep, for every input, every
interleaving of any number of threads, and every run. `dafny verify dfyconfig.toml` checks all of it.

**The HTTP connection** (`webserver/http_conn.cpp`, `http_conn.h`, `chapter_5/http_client.cpp`).
`RequestReader.dfy` is the reading half of the class, working in place on its buffer with the same cursors and interior pointers (as
offsets); every method is proved against a machine on values, `RequestParser.dfy`. About that machine the other files prove:

- `ParserInvariants.dfy`: no CR or LF is left below the scan position, so the branch of the scanner for an LF after a CR is dead; pointers
  already set end before the line being parsed; a parsed string keeps its text under all later writes, except exactly when the terminator of a
  negative Content-Length lands in it.
- `ParserChunking.dfy`: for process_read alone, how TCP cuts the stream makes no difference, if and only if a single call would not find a
  complete non-empty body.
- `ParserReads.dfy`: the same with read() and its buffer of 2048 bytes. A request is decided on if and only if some read ends behind it and
  within the buffer; otherwise the connection is closed.
- `ParserAnswers.dfy`: exactly when a waiting connection can no longer come to a decision, and when no longer to a reply: its line is bad; or
  the buffer has no room for what is missing, which takes 1 to 4 bytes; or, for a reply, its request line no longer extends to an acceptable
  one.
- `RequestGrammar.dfy`: a request line is accepted if and only if a grammar derives it, a blank-lenient and case-insensitive form of
  section 3.1.1 of RFC 7230, and the pointers then designate the parts of the derivation.
- `HeaderFields.dfy`, `HttpClient.dfy`, `PrintedBodies.dfy`: printing and parsing are inverse, for numbers, fields and whole requests that fit
  the buffer. For requests that declare a body: exactly which splits of the stream matter, what a negative length overwrites, and for which
  lengths nothing is defined. Field names come in any letter case, and with any blanks, or none, behind them.
- `Pipelining.dfy`: of two requests sent one behind the other, the second is served if and only if some read ends between them.
- `ResponseFraming.dfy`, `ResponseWriter.dfy`: what a recipient that follows section 3.3.3 of RFC 7230 makes of each response, and that the
  code, on its buffer and `iovec`, sends just these bytes. A missing file is answered with two messages, because its case falls through.
- `ResponseReading.dfy`: what a recipient reads in a response besides its length, that is, the status and whether the connection stays open,
  with readers that know nothing of how the head is written; and the responses letter by letter.
- `Sending.dfy`, `SentResponses.dfy`: the loop of `write()`, and that it brings the peer the response, whole and nothing else, if and only if
  the first `writev` accepts all of it.
- `Connection.dfy`: reading and process_write together. A printed request, cut in any way, is answered, if it fits the buffer, with just the
  messages that fit what `stat` finds; for a readable file one message that has the file as its body.

**The half-sync/half-reactor server** (`webserver/threadpool.h`, `main.cpp`, and the ownership steps of `http_conn.cpp`).
`ThreadPool.dfy` interleaves any number of appenders and workers; `Server.dfy` puts epoll, the event thread and the connections around it.
`ServerRuns.dfy` shows that each connection has at most one owner (epoll, the unread reports, the event thread, the queue, one worker), that an
open one has exactly one if and only if `append` has never refused it, and when `append` can refuse. `Service.dfy` gives each connection its
parser and its response: in every interleaving they are what they would be alone, so that what is decided on a connection, and what writev
is given for it, depends on nothing but its own bytes. This holds up to the first `parse_content` that writes outside its buffer: the run of
the model ends there. `ServiceReplies.dfy` says outright what a report and a call of process() leave behind: who is closed, who is armed for
what, and with which response. `ClientRun.dfy` follows the client's request from the start of the server to the last byte of its page.

**Textbook protocols** (`chapter_3/thread`): `BoundedBuffer.dfy` (two semaphores), `CondBuffer.dfy` (condition variable), `Tickets.dfy`
(trylock), for any number of threads, with the exact condition for a deadlock in the first two.

**Algorithms with a hidden argument**: `RoundRobin.dfy` (fairness of the process pool's dispatcher while children die), `PollTable.dfy`
(why watching `cur_max_fd` slots is enough), `Sorting.dfy` (bubble sort makes as many swaps as there are inversions).

## How threads are modelled

A thread stands at a place in its function; a step is one call or one access to shared data. A schedule is any sequence of steps; a step that
would block leaves the state as it is. `Exec` follows a schedule, and the theorems hold for all schedules. Beside each machine stands a class
with the code of a thread's turn, proved to do what the machine does when nobody interrupts, or, for the ticket seller, proved outright.

## Assumptions

- `m_stop` starts false and `m_sockfd` starts as -1; the code initialises neither.
- Waits, locks and posts succeed. `init_conn` and `close_conn` are atomic.
- `accept` returns no descriptor that is open. An `EPOLLONESHOT` descriptor is reported at most once per arming, and with hangups and the event
  it was armed for only; so the last branch of the event loop, for reports without either, is dead.
- `stat` is a function from paths to outcomes; `recv` a list of answers, none of them an empty string of bytes. Asked for zero bytes, because the
  buffer is full, `recv` returns 0 while bytes are waiting, and else the next answer of the list, which may be "would block" or the end.
- `Server.dfy` takes for granted that no `parse_content` writes outside the read buffer. In `Service.dfy` this is not assumed, but ends the run.
- A NUL behind the last byte of a full read buffer goes to the first byte of `m_write_buf`, the next member, where it changes nothing.
- `add_headers`, which ends without a return, is taken to return; its result is not used.
- Where `parse_content` falls off its end, it is taken to return NO_REQUEST, as the comment before it suggests.

## Where the code and its comments part

- The queue's documented maximum can be exceeded by one, since the test is `>`: `ThreadPool.BoundIsReached`.
- A refused request is dropped, but its connection stays open and counted for ever: `ServerRuns.ConnectionLost`. It takes two connections more
  than the documented maximum of the queue, and these must be allowed: `ServerRuns.RefusalExactly`.
- An incomplete body is answered with INTERNAL_ERROR rather than waited for: `ParserChunking.CutBeforeBody`, `PrintedBodies.BodySent`.
- A negative Content-Length is taken at its word. It may cut the url or the host, and, if it is larger than the head, has the program write
  before its buffer: `PrintedBodies.UrlCutShort`, `PrintedBodies.WriteAstray`, `PrintedBodies.NegativeLength`.
- A bad line is not answered with BAD_REQUEST; it is never answered: `ParserAnswers.LoneLineFeed`. Nor is a request line that has filled the
  buffer, up to a byte too few for its end: `ParserAnswers.OverlongLine`.
- A response for BAD_REQUEST is never sent: `ResponseWriter.ResponseWriter.ProcessWrite`, `ParserAnswers.PostIsIgnored`.
- A response counts as sent when half of its head is; the file need not be: `SentResponses.FileCutOff`, `SentResponses.ResponseSentExactly`.
- `keep-alive` loses what has been read of the next request: `Pipelining.PipelinedExactly`.

## Model

| member | source | states |
|---|---|---|
| RequestReader.RequestReader.constructor | webserver/http_conn.h:84-101 | a fresh connection is the machine's initial state, with a zeroed buffer |
| RequestReader.RequestReader.Reset | webserver/http_conn.cpp:82-100 | from any state, init() leads back to the initial state |
| RequestReader.RequestReader.Read | webserver/http_conn.cpp:338-366 | appends all bytes received and succeeds iff there was room, they fit, and the first answer that brings none is "would block": stated on the answers, with 2048 for the room |
| RequestReader.ReadExactly | webserver/http_conn.cpp:338-366 | for all answers of recv: what read() gathers is the leading byte strings, one behind the other, and EAGAIN alone, with room for them, is success |
| RequestReader.RequestReader.AtBreak | webserver/http_conn.cpp:109-132 | at a CR or LF: cut, stop or wait as the neighbouring byte decides |
| RequestReader.RequestReader.ParseLine | webserver/http_conn.cpp:102-135 | buffer, cursor and status after the loop are those of scanning to the first CR or LF |
| RequestReader.RequestReader.ParseRequestLine | webserver/http_conn.cpp:137-186 | the cuts, pointers, state and result are those the shape of the line determines |
| RequestReader.RequestReader.CutVerb | webserver/http_conn.cpp:139-154 | cuts at the first blank and accepts iff the method is GET up to case |
| RequestReader.RequestReader.CutTarget | webserver/http_conn.cpp:156-163 | skips blanks, cuts at the next one, fails iff there is none |
| RequestReader.RequestReader.CheckVersion | webserver/http_conn.cpp:164-169 | skips blanks and accepts iff the rest is HTTP/1.1 up to case |
| RequestReader.RequestReader.CheckUrl | webserver/http_conn.cpp:171-181 | the url becomes the path part of the target; accepted iff it starts with a slash |
| RequestReader.RequestReader.ParseHeaders | webserver/http_conn.cpp:188-231 | the effect of a header line on state, linger, length and host; GET_REQUEST iff the line is empty and no body is declared |
| RequestReader.RequestReader.EndHeaders | webserver/http_conn.cpp:191-199 | an empty line: on to the body iff a length other than 0 is declared, else GET_REQUEST |
| RequestReader.RequestReader.ParseField | webserver/http_conn.cpp:201-228 | only the recognised field's variable changes; HeaderFields says to what |
| RequestReader.RequestReader.ParseContent | webserver/http_conn.cpp:234-241 | complete iff the buffer holds the declared body; then one NUL is written behind it. Reported as undefined iff the sum is no int or the NUL goes before the buffer |
| RequestReader.RequestReader.DoRequest | webserver/http_conn.cpp:300-323 | m_real_file starts with the document root, is as long as root and url but for the limit of 199, and goes on as the url does; the answer is the one for what stat finds there: missing, not readable, a directory, a file |
| RequestReader.OneName | webserver/http_conn.cpp:302-305 | those conditions determine the name |
| RequestReader.IndexName | webserver/http_conn.cpp:302-305 | for the url /index.html it is /home/ouyangyiqi/Learning/Linux/html/index.html |
| RequestReader.RequestReader.ProcessRead | webserver/http_conn.cpp:243-292 | the loop refines the machine: same final state, and, unless parse_content goes astray, the code for it: NO_REQUEST, BAD_REQUEST, INTERNAL_ERROR, or by what stat finds under the name for the url |
| RequestReader.CodeAnswers | webserver/http_conn.cpp:243-323 | the codes the machine's decisions stand for are these |
| ParserInvariants.ScanInvariant | webserver/http_conn.cpp:102-135 | with no break below the cursor the LF-after-CR branch is dead, the scan keeps this and writes nothing below the cursor |
| ParserInvariants.ScannerOverRuns | webserver/http_conn.cpp:102-135 | so in every state reachable from init(): cursors in order, no break behind them, and that branch unreachable |
| ParserInvariants.TurnKeeps | webserver/http_conn.cpp:248-289 | one turn of the loop keeps the invariant, all earlier bytes and all pointers already set |
| ParserInvariants.RunKeeps | webserver/http_conn.cpp:243-292 | so does a whole call, but for the NUL of a negative Content-Length |
| ParserInvariants.DriveKeeps | webserver/http_conn.cpp:554-569 | so does any sequence of chunks with a call after each |
| ParserInvariants.StringStable | webserver/http_conn.cpp:137-241 | a string of an earlier line keeps its text iff no negative-length terminator is written inside it |
| ParserInvariants.ParsedStable | webserver/http_conn.cpp:137-241 | url and host read the same in every later state, if no negative length writes back |
| ParserChunking.RunExtends | webserver/http_conn.cpp:243-292 | what more bytes in the buffer change about the result of a call |
| ParserChunking.DriveAgrees | webserver/http_conn.cpp:102-292 | every split of a stream decides as one call does, with equal url, host and linger, and equal state while undecided |
| ParserChunking.CutBeforeBody | webserver/http_conn.cpp:277-287 | a stream whose body one call would find complete can be split so that INTERNAL_ERROR results |
| ParserChunking.ChunkingTheorem | webserver/http_conn.cpp:102-292 | for process_read without read() and its bound: splits make no difference iff one call does not find a complete non-empty body |
| ParserChunking.PendingSettled | webserver/http_conn.cpp:557-562 | every undecided run ends in a state to which the theorem applies again |
| ParserChunking.BadLineIsForever | webserver/http_conn.cpp:121-131 | after LINE_BAD every later call scans to the same byte and answers NO_REQUEST, whatever arrives |
| ParserReads.ReceivedExactly | webserver/http_conn.cpp:338-366 | reads and calls, for any stream and cuts: without a request in it, the connection waits if the stream fits and is closed if not; else it is decided on iff some read ends behind the request and within the buffer |
| ParserReads.FirstCut | webserver/http_conn.cpp:338-366 | the first read that ends behind the request decides, as one call on all bytes up to there |
| ParserReads.ReceiveAgrees | webserver/http_conn.cpp:102-366 | if a stream is decided on, then as what fits the buffer is in one read, unless a body arrives in it |
| ParserReads.ReadsTheorem | webserver/http_conn.cpp:102-366 | the cuts make no difference iff, for a stream that fits, one call does not find a complete non-empty body, and for another, no request ends within the buffer |
| ParserAnswers.NeverDecidedExactly | webserver/http_conn.cpp:102-366 | a waiting connection gets no decision from any further reads iff the scan stopped early at anything but a final CR, or the room left is less than the shortest completion, of 1 to 4 bytes |
| ParserAnswers.NeverRepliedExactly | webserver/http_conn.cpp:102-366 | it gets no reply, neither do_request nor the page for INTERNAL_ERROR, iff the scan stopped early; or its request line extends to no acceptable one for which, with the empty line, there is room; or there is no room to end its header |
| ParserAnswers.NeededEnough | webserver/http_conn.cpp:243-292 | so many bytes suffice for a decision, in a header for a reply |
| ParserAnswers.NeededLeast | webserver/http_conn.cpp:243-292 | no decision takes fewer |
| ParserAnswers.LoneLineFeed | webserver/http_conn.cpp:123-131 | a line feed on a fresh connection is a bad line, never decided on |
| ParserAnswers.OverlongLine | webserver/http_conn.cpp:338-346 | 2047 bytes of an open line wait for ever, as their end does not fit |
| ParserAnswers.PostIsIgnored | webserver/http_conn.cpp:147-154 | after POST a decision can be had, but no reply |
| RequestGrammar.ShapeOfDerivation | webserver/http_conn.cpp:137-186 | completeness: the searches find the parts of every derivable line |
| RequestGrammar.DerivationOfShape | webserver/http_conn.cpp:137-186 | soundness: an accepted line has a derivation |
| RequestGrammar.RequestLineTheorem | webserver/http_conn.cpp:137-186 | accepted iff derivable; url, version and method pointers then hold path, version and method |
| RequestGrammar.MixedLine | webserver/http_conn.cpp:137-186 | one line in mixed case, with tabs, blanks and a host in its target, and where its parts are found |
| CStrings.EqFoldExactly | webserver/http_conn.cpp:151-178 | strcasecmp finds strings equal iff they are of one length and have the same letters, the cases being 32 apart |
| CStrings.ClassesAre | webserver/http_conn.cpp:139-204 | the characters that the calls of strpbrk, strspn and strchr, and the loop of parse_line, look for |
| HeaderFields.AtoIOfDec | webserver/http_conn.cpp:215 | reading what printf writes for an int gives that int |
| HeaderFields.AtoIReads | webserver/http_conn.cpp:215 | of any text that starts with a number, behind space and a sign or none: the int equal to the number modulo 2^32, or 0 or -1 beyond the range of a long |
| HeaderFields.AtoIOfNoNumber | webserver/http_conn.cpp:215 | text that starts with none is 0 |
| HeaderFields.LengthField | webserver/http_conn.cpp:211-216 | for a name in any case and any gap of blanks, empty included: Content-Length sets the length to what atol makes of the value |
| HeaderFields.ContentLengthRead | webserver/http_conn.cpp:211-216 | so, printed with any such name and gap, an int comes back |
| HeaderFields.HostField | webserver/http_conn.cpp:218-223 | for any such name and gap, Host points at the value |
| HeaderFields.ConnectionField | webserver/http_conn.cpp:201-209 | for any such name and gap, Proxy-Connection clears linger iff the value is not keep-alive up to case |
| HeaderFields.EffectByName | webserver/http_conn.cpp:188-231 | a field has one of these effects iff its whole name, up to the first colon, is that name up to case; a line without a colon has none |
| HttpClient.BuildRequest | chapter_5/http_client.cpp:35-41 | the lines streamed together are the printed form of the client's url, host and fields |
| HttpClient.PrintedIsAnswered | webserver/http_conn.cpp:188-287 | a printed request with any fields and a body behind it, in one call: undefined iff a declared end of the body is no int or before the buffer; else INTERNAL_ERROR iff the declared length exceeds the body; else do_request with linger and, if the length is not negative, url and host as printed; if it is, cut at the NUL; and the body ends where it is declared to |
| HttpClient.PrintedInChunks | webserver/http_conn.cpp:137-366 | without a declared body, however the bytes are cut into reads: do_request with url, host and linger iff the request fits the read buffer, else the connection is closed |
| HttpClient.RoundTrip | webserver/http_conn.cpp:137-366 | any url, any spelling of the Host line and ignored fields, printed in that format, that fit the buffer, reach do_request with that url and host and linger set, however they are cut |
| HttpClient.ClientIsServed | chapter_5/http_client.cpp:35-41 | the client's own request is one of these |
| PrintedBodies.ChunkingOfPrinted | webserver/http_conn.cpp:234-366 | cuts of a printed request and its body make no difference iff the head does not fit the buffer, or all fits and the declared length is not positive or exceeds the body |
| PrintedBodies.PrintedReceived | webserver/http_conn.cpp:234-366 | such a request is answered iff some read ends behind its head and within the buffer, then as if just the part of the body had come that the first such read brings |
| PrintedBodies.BodySent | webserver/http_conn.cpp:211-287 | a request with any body and its own length, in any spelling of the field, is, if answered, served iff no read ends between head and end of body, else INTERNAL_ERROR |
| PrintedBodies.NegativeLength | webserver/http_conn.cpp:236-239 | a negative length that is larger than the head goes astray; with any other do_request is reached; url, and host, are as printed iff the NUL, that many bytes before the end of the head, is not within them |
| PrintedBodies.PositiveLength | webserver/http_conn.cpp:236-239 | any other length goes astray iff the end of the body is no int |
| PrintedBodies.UrlCutShort | webserver/http_conn.cpp:236-239 | a request for /ab with the length -42 is served as one for / |
| PrintedBodies.WriteAstray | webserver/http_conn.cpp:236-239 | with the length -3500 it has the program write before its buffer |
| Pipelining.PipelinedExactly | webserver/http_conn.cpp:82-100 | two printed requests, the first of which keeps the connection alive, the second without anything that looks like a request line in its other lines: if the first is answered, the second is served iff some read ends between the two and it fits; else it gets no reply |
| Pipelining.ClientTwice | chapter_5/http_client.cpp:35-41 | the client's request sent twice is one of these |
| ResponseFraming.FrameOne | webserver/http_conn.cpp:437-462 | a head with a length that is not negative is framed with just so many bytes of what follows, any other not at all |
| ResponseFraming.ErrorFraming | webserver/http_conn.cpp:473-514 | the responses for 500 and 403 are one message each, with a Content-Length equal to the body's |
| ResponseFraming.MissingFraming | webserver/http_conn.cpp:495-514 | the response for a missing file is two such messages |
| ResponseFraming.FileFraming | webserver/http_conn.cpp:516-529 | a file response is one message iff the size fits an int, and then its body is the file |
| ResponseFraming.EmptyFileFraming | webserver/http_conn.cpp:530-538 | an empty file is answered with a page, framed as one message |
| ResponseFraming.ResponsesFramed | webserver/http_conn.cpp:469-548 | every response is framed as the messages listed for its code |
| ResponseReading.StatusRead | webserver/http_conn.cpp:437-440 | a recipient that splits the first line at its blanks reads version HTTP/1.1, the status as a number, and the reason |
| ResponseReading.ConnectionRead | webserver/http_conn.cpp:454-457 | one that looks up Connection by its name finds keep-alive iff linger, close iff not |
| ResponseReading.ResponsesTell | webserver/http_conn.cpp:437-548 | every response, of a file that fits an int, tells the status of its code and keep-alive iff linger |
| ResponseReading.ForbiddenSpelled | webserver/http_conn.cpp:505-514 | the 403 response that keeps the connection alive, letter by letter |
| ResponseReading.InternalSpelled | webserver/http_conn.cpp:473-482 | the 500 response that closes it |
| ResponseReading.MissingSpelled | webserver/http_conn.cpp:495-514 | the two messages for a missing file |
| ResponseReading.FileSpelled | webserver/http_conn.cpp:516-529 | the head of a file response, and the file |
| ResponseReading.EmptyFileSpelled | webserver/http_conn.cpp:530-538 | the page for an empty file |
| ResponseWriter.ResponseWriter.AddResponse | webserver/http_conn.cpp:417-435 | appends the text, or fails without moving the index iff it does not fit |
| ResponseWriter.ResponseWriter.ProcessWrite | webserver/http_conn.cpp:469-548 | fails iff the code is BAD_REQUEST; otherwise the vectors designate exactly the framed payload, and m_write_idx is its length without the file |
| Connection.Serve | webserver/http_conn.cpp:338-366 | a read and the call after it are one step of the machine, or the read fails as it does not fit |
| Connection.Converse | webserver/http_conn.cpp:554-569 | reads and calls for one chunk after another, until an answer or a failed read, are the machine's run over the chunks |
| Connection.Exchange | webserver/http_conn.cpp:554-575 | a printed request in any chunks is answered iff it fits the buffer and does not name a directory, with bytes framed as the messages for what stat finds, with a file of the size stat reports |
| ThreadPool.Safety | webserver/threadpool.h:78-123 | every run keeps exclusion, the token equation, the logs and the bound |
| ThreadPool.TokenEquation | webserver/threadpool.h:102-115 | queue length = tokens + threads between push and post or between wait and pop; so a worker never finds the queue empty |
| ThreadPool.FifoOnce | webserver/threadpool.h:87-117 | requests pushed = requests popped, then the queue; its length is at most the maximum plus one |
| ThreadPool.NoLostWakeup | webserver/threadpool.h:107-117 | with requests queued and no thread in between, each blocked worker can take a token |
| ThreadPool.NoDeadlock | webserver/threadpool.h:78-123 | with a worker and a request queued, some thread inside append or run can move |
| ThreadPool.WhileLocked | webserver/threadpool.h:81-89 | whatever others do, the owner of the mutex finds queue and logs unchanged |
| ThreadPool.AppendOutcome | webserver/threadpool.h:82-91 | append among other threads' steps: refused iff the queue is longer than the maximum, and then without any other effect |
| ThreadPool.AppendAlone | webserver/threadpool.h:78-92 | a refused call leaves the whole pool as it was; another adds its request at the end, and a token |
| ThreadPool.RunAlone | webserver/threadpool.h:103-121 | a turn takes the oldest request; a null one is dropped |
| ThreadPool.BoundIsReached | webserver/threadpool.h:82 | for every maximum, a run that queues one more, after which append refuses |
| ThreadPool.ThreadPool.constructor | webserver/threadpool.h:41-69 | an empty pool with its threads at their start |
| ThreadPool.ThreadPool.Append | webserver/threadpool.h:78-92 | returns true iff the queue was not longer than the maximum; refines the machine |
| ThreadPool.ThreadPool.RunOnce | webserver/threadpool.h:102-123 | hands out the oldest request, if there is one and it is not null; refines the machine |
| Server.HeldStep | webserver/threadpool.h:78-123 | a step of the pool neither doubles a request nor loses one, but by refusal or at the end of process() |
| Server.StepFate | webserver/main.cpp:97-157 | what any step of the server does to the owners of any connection |
| Server.Safety | webserver/main.cpp:97-157 | every run keeps ownership, service only of open connections, roles and count |
| ServerRuns.ExclusiveOwnership | webserver/main.cpp:97-157 | at most one owner; never queued twice, held by two threads, or held while armed; open while queued or held |
| ServerRuns.ConnectionCount | webserver/http_conn.cpp:58-80 | m_user_count is the number of slots with m_sockfd not -1, and at most MAX_FD |
| ServerRuns.OneOwnerExactly | webserver/main.cpp:97-157 | an open connection has exactly one owner iff no step of the run was a refusal of it, else none |
| ServerRuns.FewAreOwned | webserver/main.cpp:124-154 | while m_user_count stays below m_max_requsts + 2, every open connection has exactly one owner |
| ServerRuns.RefusalNeedsMany | webserver/threadpool.h:82-86 | when append refuses, m_user_count is at least m_max_requsts + 2 |
| ServerRuns.RefusalReached | webserver/main.cpp:97-157 | a run from the start, of one connection more than the queue takes, in which append refuses |
| ServerRuns.RefusalExactly | webserver/threadpool.h:82-86 | some run leads to a refusal iff MAX_FD is at least m_max_requsts + 2 |
| ServerRuns.IdleForever | webserver/main.cpp:97-157 | a connection without owner stays so: it is not handed to append again, nor closed |
| ServerRuns.RefusedForever | webserver/main.cpp:137-141 | a connection whose request append refuses stays open, counted and without owner |
| ServerRuns.ConnectionLost | webserver/main.cpp:137-141 | then there is a run from the start after which a connection is open without owner, whatever follows |
| ServerRuns.PoolRun | webserver/main.cpp:137-140 | a run of the server is a run of its thread pool |
| ServerRuns.ServedInOrder | webserver/main.cpp:137-141 | what was read, in order, without the refused, is what the workers popped, then the queue, then what is in hand |
| Server.WebServer.CloseConn | webserver/http_conn.cpp:58-65 | closes and counts down iff the slot is open |
| Server.WebServer.ModFd | webserver/http_conn.cpp:47-53 | arms the connection iff its slot is open |
| Server.WebServer.InitConn | webserver/http_conn.cpp:67-80 | opens, arms and counts the connection |
| Sending.Send | webserver/http_conn.cpp:372-415 | on the answers of writev: once half of m_write_idx is written, done, by m_linger; if EAGAIN comes before, again; if another error does, failed; nothing to send for 0; and the calls of writev it makes |
| Sending.EndsBySent | webserver/http_conn.cpp:372-415 | the simple form of the loop, by sums over all answers, ends so for every prefix of counts |
| Sending.SentWholeExactly | webserver/http_conn.cpp:372-415 | one call of write() brings the peer the response and nothing else iff the first writev accepts all of it |
| Sending.HalfIsDone | webserver/http_conn.cpp:399-402 | half of the head is enough for success |
| SentResponses.ResponseSentExactly | webserver/http_conn.cpp:372-415 | the same for each response of process_write |
| SentResponses.FileCutOff | webserver/http_conn.cpp:399-402 | if writev takes the head of a file response and no more, write() succeeds, and the peer has no complete message |
| Server.WebServer.WriteConn | webserver/http_conn.cpp:372-415 | arms for writing after EAGAIN, not after another error, else for reading; false after a failure or when done without linger |
| Server.WebServer.HandleEvent | webserver/main.cpp:106-156 | one turn of the event loop is a step of the machine |
| Server.WebServer.ProcessConn | webserver/http_conn.cpp:554-569 | process() closes or re-arms its connection and gives it up, as a step of the machine |
| Service.ServerRun | webserver/main.cpp:97-157 | with the parsers, every run is still a run of the server |
| Service.ParserAsIfAlone | webserver/http_conn.cpp:554-569 | in every interleaving, up to the first stray write, the parser of a connection has run over its chunks since init() as if alone; armed for reading only if undecided, for writing only if decided |
| Service.DecisionIsItsOwn | webserver/http_conn.cpp:554-562 | what a worker decides on a connection is the run over its chunks |
| Service.DecisionOnBytes | webserver/http_conn.cpp:554-562 | so, without a complete body, it is what one call decides on all its bytes |
| Service.ResponseIsItsOwn | webserver/http_conn.cpp:554-575 | what writev is given for a connection is the response to the decision on its own chunks, framed as the messages for it; the peer gets it whole iff one call takes all |
| ServiceReplies.ProcessExactly | webserver/http_conn.cpp:554-569 | in every interleaving, by the decision and what stat finds under the name for the url: armed for reading iff nothing is decided; closed iff the request is bad or names a directory; else open, armed for writing, with the response that fits and its m_write_idx |
| ServiceReplies.ReportExactly | webserver/main.cpp:129-154 | in every interleaving, a report about an open connection: a hangup closes it; bytes are all appended and the connection handed to append, or it is closed if read() fails; write() leaves it armed for writing with the same response, closed, or armed for reading as new, by the answers of writev |
| ClientRun.FirstRequest | webserver/main.cpp:97-157 | from the start, for any first request in one chunk and any worker: accepted, read, queued and fetched, it ends as ProcessExactly says |
| ClientRun.ClientAnswered | webserver/main.cpp:97-157 | so the client's request ends armed for writing, with the head of a 200 response and the page |
| ClientRun.ClientServed | webserver/main.cpp:97-157 | these bytes, letter by letter, reach it whole by one writev, and then its connection waits for the next request, as new |
| Service.LostByItsBytes | webserver/http_conn.cpp:234-241 | a stray write is one that the connection's own chunks, parsed alone, lead to |
| BoundedBuffer.Safety | chapter_3/thread/semaphore.cpp:33-67 | every run keeps both equations, mutual exclusion and the items |
| BoundedBuffer.TokenEquations | chapter_3/thread/semaphore.cpp:33-73 | places: filled + free + producers before push + consumers after pop = 100; items: announced + producers after push + consumers before pop |
| BoundedBuffer.BufferSafety | chapter_3/thread/semaphore.cpp:33-66 | size at most 100, back() never on an empty buffer, produced = consumed + buffered as multisets, one thread inside |
| BoundedBuffer.DeadlockExactly | chapter_3/thread/semaphore.cpp:33-66 | all threads are blocked iff there are only producers and no slot, or only consumers and no item |
| BoundedBuffer.NoDeadlock | chapter_3/thread/semaphore.cpp:78-94 | with a producer and a consumer some thread can always move |
| BoundedBuffer.Buffer.Produce | chapter_3/thread/semaphore.cpp:37-45 | the loop body refines the machine |
| BoundedBuffer.Buffer.Consume | chapter_3/thread/semaphore.cpp:56-62 | takes the last item, which is there; refines the machine |
| CondBuffer.Safety | chapter_3/thread/pthread_cond.cpp:32-73 | every run, spurious wakeups included, keeps exclusion, items, and a signal on its way while an item lies and all consumers sleep |
| CondBuffer.NoStrandedItems | chapter_3/thread/pthread_cond.cpp:32-73 | with the mutex free and all consumers asleep the buffer is empty |
| CondBuffer.ItemsCanBeFetched | chapter_3/thread/pthread_cond.cpp:52-69 | with the mutex free and an item in the buffer some consumer can take the mutex |
| CondBuffer.BufferSafety | chapter_3/thread/pthread_cond.cpp:38-63 | size at most 100, produced = consumed + buffered, one thread inside |
| CondBuffer.DeadlockExactly | chapter_3/thread/pthread_cond.cpp:32-73 | nothing can move iff every thread sleeps on the condition |
| CondBuffer.Buffer.Produce | chapter_3/thread/pthread_cond.cpp:36-47 | the loop body refines the machine |
| CondBuffer.Buffer.Consume | chapter_3/thread/pthread_cond.cpp:56-69 | takes the last item, or sleeps without the mutex; refines the machine |
| Tickets.Safety | chapter_3/thread/case_sell_tickets.cpp:27-65 | every interleaving of trylock successes and failures keeps stock, prints and tests |
| Tickets.Conservation | chapter_3/thread/case_sell_tickets.cpp:40-59 | tickets left + tickets counted = total whenever the mutex is free |
| Tickets.SoldOnce | chapter_3/thread/case_sell_tickets.cpp:47-50 | the numbers sold are total, total - 1, and so on, each once, as many as are counted |
| Tickets.AllSold | chapter_3/thread/case_sell_tickets.cpp:95-101 | when all sellers have returned nothing is left and the counters sum to the total |
| Tickets.NoDeadlock | chapter_3/thread/case_sell_tickets.cpp:40-60 | while a seller has not stopped some seller can make progress |
| Tickets.JoinAll | chapter_3/thread/case_sell_tickets.cpp:95-101 | the joining loop computes the sum of the counters |
| Tickets.Office.SellTickets | chapter_3/thread/case_sell_tickets.cpp:27-65 | a seller alone sells all that is left in descending order and stops with the mutex free |
| RoundRobin.StopsIffNoneLive | chapter_5/CGI/process_pool.cpp:258-262 | a dispatch stops the parent iff no child is alive |
| RoundRobin.OneNearer | chapter_5/CGI/process_pool.cpp:248-264 | a dispatch picks a given live child or leaves fewer live ones before it |
| RoundRobin.Fairness | chapter_5/CGI/process_pool.cpp:247-303 | a child alive to the end is chosen within as many dispatches as there were live children, while others die |
| RoundRobin.ExactlyOnce | chapter_5/CGI/process_pool.cpp:247-264 | while nobody dies, L dispatches choose each of the L live children exactly once |
| RoundRobin.ReapExactly | chapter_5/CGI/process_pool.cpp:285-294 | reaping a pid is the end of just the children that have it |
| RoundRobin.ReapedNotChosen | chapter_5/CGI/process_pool.cpp:248-294 | a child whose pid is reaped is not chosen again, whatever follows |
| RoundRobin.ProcessPool.Select | chapter_5/CGI/process_pool.cpp:247-264 | the loop ends and finds the first live child from the counter on, cyclically; or stops |
| RoundRobin.ProcessPool.ReapChild | chapter_5/CGI/process_pool.cpp:285-304 | every slot with the pid becomes dead, others stay; the stop flag is cleared iff somebody lives |
| PollTable.Pigeonhole | chapter_4/poll.cpp:62-73 | distinct descriptors in an interval are at most as many as its length |
| PollTable.TakenReach | chapter_4/poll.cpp:62-73 | a descriptor that goes to slot k raises cur_max_fd to the listening descriptor plus k at least |
| PollTable.FreeSlot | chapter_4/poll.cpp:62-70 | the table is never full |
| PollTable.Safety | chapter_4/poll.cpp:34-95 | any legal connects and disconnects keep this |
| PollTable.Coverage | chapter_4/poll.cpp:34-95 | poll watches every live client, a slot is free, and the loop over slots stays in the table |
| PollTable.CoverageExactly | chapter_4/poll.cpp:42-74 | that holds in all runs iff the listening descriptor is not 0 |
| PollTable.AcceptStores | chapter_4/poll.cpp:58-73 | an accepted client is stored in a free, watched slot, and the others stay; a failed accept changes nothing |
| PollTable.DisconnectFrees | chapter_4/poll.cpp:89-95 | a client that has gone leaves just its slot free, and the next one gets this slot or one before it |
| PollTable.Poller.constructor | chapter_4/poll.cpp:34-44 | all slots are free but the first, which has the listening socket |
| PollTable.Poller.Connect | chapter_4/poll.cpp:62-73 | the search and the update of cur_max_fd refine the machine |
| PollTable.Poller.Drop | chapter_4/poll.cpp:89-95 | the slot becomes free |
| Sorting.InversionsArePairs | chapter_1/gdb/bubble.cpp:10-14 | the recursive count is the number of pairs of positions with a larger element before a smaller one |
| Sorting.SwapRemovesOne | chapter_1/gdb/bubble.cpp:10-14 | swapping neighbours out of order removes exactly one inversion |
| Sorting.SortedNoInversions | chapter_1/gdb/bubble.cpp:6-18 | sorted iff no inversions |
| Sorting.SortedUnique | chapter_1/gdb/select.cpp:6-18 | two sorted arrangements of the same numbers are equal |
| Sorting.BubbleSort | chapter_1/gdb/bubble.cpp:6-18 | leaves the sorted permutation and makes exactly as many swaps as the input has inversions |
| Sorting.SelectSort | chapter_1/gdb/select.cpp:6-18 | leaves the same sorted permutation |

## Left out

- Connection.Exchange: class http_conn is split into a reading and a writing object, so the sharing of one object by both halves is not modelled.
- RequestReader.RequestReader.ParseContent: what happens after a write outside the buffer, or an overflow of the sum, is not modelled; it is reported.
- RequestReader.RequestReader.ParseRequestLine: m_method is not kept, as it never differs from GET.
- HeaderFields.AtoIOfDec: atol is taken to saturate at the range of a 64-bit long, and the result to wrap when stored in an int.
- Sending.SentWholeExactly: what the peer has after several calls of write(), each of which starts again at the first byte; unmap().
- ResponseWriter.ResponseWriter.ProcessWrite: starts with an empty write buffer, as after init().
- ServerRuns.ConnectionCount: m_user_count is changed by several threads without a lock; the updates are atomic here.
- Server.WebServer.HandleEvent: users is a map over all slots, so an accepted descriptor beyond the array is not modelled; neither is EINTR from epoll_wait.
- ThreadPool.ThreadPool.constructor: thread creation and its exceptions; waits interrupted by signals; destruction while threads run.
- RoundRobin.ProcessPool.ReapChild: pipes, signal decoding and the killing of children; waitpid is a parameter.
- PollTable.Poller.Connect: reading and echoing of data, and stale revents of slots that poll did not look at.
- Fairness of the scheduler: nothing is proved about when a thread moves, only that it can.
- chapter_5/threadpool.h and chapter_5/http_header_parser.cpp, earlier copies of the modelled code.
- The select, epoll, TCP, UDP, pipe, fifo, shared memory, signal, daemon, chat and file examples, which are calls into the system.
