# Verified models of Dovecot's session registry and authentication machinery

Dovecot keeps several hand-maintained data structures and event-driven state machines whose correctness rests on
invariants that the C code asserts, or panics on. This project models nine of them in Dafny and proves those invariants
over all runs. It is checked with `dafny verify dfyconfig.toml`.

| files | what they model |
|---|---|
| `SessionLog`, `RegistryViews`, `AltFieldViews`, `SessionIter`, `ConnectLimit`, `RegistryRuns` | anvil's registry of sessions with its five indexes (`src/anvil/connect-limit.c`) |
| `LdapWire`, `LdapPipeline`, `LdapConnection` | the LDAP request pipeline (`src/auth/db-ldap.c`) |
| `LdapEscape`, `Utf8` | escaping of LDAP filter and DN values (`src/auth/db-ldap.c`), after their repair as UTF-8 (`src/lib/unichar.c`) |
| `AuthWorkers` | the scheduler of auth workers (`src/auth/auth-worker-connection.c`) |
| `LruSpec`, `AuthCache` | the auth cache (`src/auth/auth-cache.c`) |
| `PenaltySpec`, `Penalty` | the penalty tracker (`src/anvil/penalty.c`) |
| `PassdbChain` | the chain of password databases (`src/auth/auth-request.c`) |
| `AuthFields` | request fields with a lazily copied snapshot (`src/auth/auth-fields.c`) |
| `KickDriver`, `KickRuns` | kicking users (`src/anvil/anvil-connection.c`), and whole runs of it with the registry |

How the models are built:

- State that the C code changes in place is the state of a class or, where that keeps proofs small, a record that the
  methods take and return and that a class holds in one field (`ConnectLimit`, `LdapConnection`, `AuthWorkers`,
  `AuthRequest`). The auth cache keeps its prev/next pointers and penalty records their slot arrays.
- What a component is for is stated without its data structures: one list of live sessions for the registry, a monitor
  over the wire traffic for LDAP, a list of entries in order of last use for the cache, the unlimited history of
  checksums for penalties, the trace of lookups for the password chain. The data structures are proved to agree with it.
- Time, replies, lookup results, successes of system calls and the LDAP library's answers are inputs that may have any
  value the environment can produce.

Promises that turned out not to hold, with the exact condition under which they do:

- A connect reaches no assert or panic of the registry if and only if its GUID is live already, or its process is not 0
  and its field names are distinct (`ConnectLimit.ConnectLimit.Connect`, `RegistryRuns.Replay`; `RegistryRuns.ConnectPanics`
  has both cases).
- The LDAP pipeline keeps its invariant if and only if a bind is not answered by a search entry
  (`LdapPipeline.HandleReply`; `LdapConnection.EntryAnswersBind` is a run that loses it).
- A request that waits for an LDAP connection has a timeout unless StartTLS fails on a connection without an abort timer
  (`LdapPipeline.Connect`; `LdapConnection.WaitsUnattended` is such a run).
- The worker throttle count stays positive unless the last failing worker recovers while the process limit is zero
  (`AuthWorkers.HandleSuccess`; `AuthWorkers.ThrottleDropsToZero` is a run that gets there).
- There is some worker while requests are queued, if and only if no call found none and could not create one, and the
  last worker never left without a replacement while requests waited (`AuthWorkers.Handle`; `AuthWorkers.LeftStranded` is
  a run in which one does). Nothing is started or completed after that (`AuthWorkers.StrandedForever`).
- While requests are queued no other worker can be created, as the code assumes, until a connection for a new request
  fails, a worker leaves the last room unreplaced, the limit rises, or it becomes zero (`AuthWorkers.OpensIff`, and
  `AuthWorkers.Handle` for all events; `AuthWorkers.WaitsBesideRoom` is a run in which it can).
- The cache's byte accounting holds if and only if the entries fit the budget and none that was inserted lost bytes to
  31 bits (`AuthCache.Cache.BalancedIff`, `AuthCache.Cache.Insert`; `AuthCache.TooLarge` inserts one that does not fit).
- A rollback of fields is exact if and only if the snapshot was not copied after a field was appended
  (`AuthFields.AuthFields.Rollback`, `AuthFields.EditAndRollback`; `AuthFields.LateCopy` is such a case).
- Resuming suspended kicks uses only iterators that are still open if and only if no kick that has closed its own is
  reached below the limit (`KickDriver.Driver.KickMore`; `KickDriver.ResumeCrashes` reaches one).

## Model

| member | source | states |
|---|---|---|
| `SessionLog.ProtocolIsPrefix` | src/anvil/connect-limit.c:428-432 | The protocol of a service is its name up to the first "-": a prefix without "-" that ends at one or is the whole name. |
| `SessionLog.PickMember` | src/anvil/connect-limit.c:200-235 | An index of the registry holds a GUID exactly if a live session with that GUID belongs to the index. |
| `SessionLog.PickUnique` | src/anvil/connect-limit.c:200-235 | A live session appears at most once in an index. |
| `SessionLog.PickWithout` | src/anvil/connect-limit.c:222-235 | Removing a session from the live sessions is unlinking it from the lists it belongs to, and leaves every other list alone. |
| `SessionLog.WithoutThenPid` | src/anvil/connect-limit.c:544-560 | Removing the sessions of a process one by one, in any order, removes exactly them. |
| `RegistryViews.ConnectConsistent` | src/anvil/connect-limit.c:387-457 | If every table is a view of the live sessions, then after the table edits of a connect every table is a view of them plus the new one: GUID table, user lists, process lists, user+protocol+IP counts, alternative-username lists and slot reference counts, shared records and names, string references. |
| `RegistryViews.DisconnectConsistent` | src/anvil/connect-limit.c:517-542 | The same for the table edits of a disconnect. |
| `RegistryViews.ConsistentFreeable` | src/anvil/connect-limit.c:465-515 | In consistent tables everything that freeing a session looks up is there, so none of the panics about inconsistent hash tables can be reached. |
| `RegistryViews.SharedRecord` | src/anvil/connect-limit.c:413-449 | Tracked sessions with the same user, protocol and IP share the record that the counting table holds, and it is still allocated. |
| `AltFieldViews.RefRenamed` | src/anvil/connect-limit.c:257-293 | A slot is renamed only when it has no references and its table is empty; then slot names stay unique and no live session sees another name. |
| `AltFieldViews.RefAppended` | src/anvil/connect-limit.c:257-293 | A field that has no slot and finds none free gets a new slot under a name no other slot has. |
| `AltFieldViews.FillSlot` | src/anvil/connect-limit.c:345-349 | A value finds the slot of its field unused exactly if the session did not supply that name before. |
| `AltFieldViews.AllUnlinked` | src/anvil/connect-limit.c:355-385 | After the values of a session are unlinked, every alternative-username list is the view of the remaining sessions. |
| `ConnectLimit.AltFieldFind` | src/anvil/connect-limit.c:237-255 | Finds the slot of a field name; if there is none, the first slot without references, or -1. |
| `ConnectLimit.AltFieldRef` | src/anvil/connect-limit.c:257-293 | References a slot of the given name, reusing or adding one, also if the connect has referenced it before; one is added only if none has the name and none is unused. Names stay unique and the lists of other fields keep their contents. |
| `ConnectLimit.RefAltFields` | src/anvil/connect-limit.c:327-341 | Every supplied field name, repeated or not, gets the slot of its name with one reference each time, and the largest slot index is found. |
| `ConnectLimit.LinkAltValues` | src/anvil/connect-limit.c:305-353 | The assert that a slot is unused fails exactly if a name was supplied twice; otherwise each value is linked at the front of its list in its slot, and only there. |
| `ConnectLimit.SetAltUsernames` | src/anvil/connect-limit.c:327-353 | Asserts exactly if a name is supplied twice; otherwise the alternative-username tables become the view of the live sessions plus the new one. |
| `ConnectLimit.UnsetAltUsernames` | src/anvil/connect-limit.c:355-385 | The alternative-username tables become the view without the session; slot names stay. |
| `ConnectLimit.ConnectTables` | src/anvil/connect-limit.c:387-457 | An assert fails if and only if the GUID is not live and the process is 0 or a field name is supplied twice. Otherwise consistent tables stay consistent and the live sessions become those of the reference registry; a GUID that is live is refused. |
| `ConnectLimit.ConnectHolds` | src/anvil/connect-limit.c:413-457 | The table edits of a connect, with the session of a process other than 0, lead to tables that hold exactly the reference registry after the connect; there was no process 0 before. |
| `ConnectLimit.RegisterNew` | src/anvil/connect-limit.c:413-457 | Given alternative-username tables that already show the new session, the rest of a connect asserts exactly for process 0, and otherwise all tables hold the reference registry after it. |
| `ConnectLimit.SessionFree` | src/anvil/connect-limit.c:486-515 | Drops the user+IP reference, the list entries, the alternative usernames and the service string of one session, and nothing else. |
| `ConnectLimit.FreeUserIp` | src/anvil/connect-limit.c:459-484 | The user+IP record is freed with its last tracked session, and its protocol string with it. |
| `ConnectLimit.Unregister` | src/anvil/connect-limit.c:517-542 | The tables after a live session has been taken out of all of them. |
| `ConnectLimit.IsSession` | src/anvil/connect-limit.c:523-535 | The parameters of a disconnect are compared with all of the session they name. |
| `ConnectLimit.DisconnectTables` | src/anvil/connect-limit.c:517-542 | Consistent tables stay consistent, and the live sessions become those of the reference registry after the disconnect; unknown GUIDs and differing parameters change nothing. |
| `ConnectLimit.FreeFirstSession` | src/anvil/connect-limit.c:544-560 | One round of freeing a process: its first session is gone from every table. |
| `ConnectLimit.ProcessFree` | src/anvil/connect-limit.c:544-560 | Exactly the sessions of the process are gone, from every table. |
| `ConnectLimit.NothingLeft` | src/anvil/connect-limit.c:150-179 | With no process left every table is empty, no slot has references, and the only string references are those of open iterators. |
| `ConnectLimit.Collect` | src/anvil/connect-limit.c:647-675 | Walking a list returns exactly the wanted live sessions, sorted by process and GUID, and references the service string of each. |
| `ConnectLimit.CollectAltUsername` | src/anvil/connect-limit.c:677-709 | The same for an alternative username; an unknown field returns nothing. |
| `ConnectLimit.Release` | src/anvil/connect-limit.c:724-734 | Closing an iterator drops exactly the string references its results hold. |
| `ConnectLimit.ConnectLimit.constructor` | src/anvil/connect-limit.c:120-135 | An empty registry. |
| `ConnectLimit.ConnectLimit.Lookup` | src/anvil/connect-limit.c:181-193 | The number of live sessions with that user and IP, the same protocol and no destination IP, counted by these fields of the sessions. |
| `ConnectLimit.ConnectLimit.Connect` | src/anvil/connect-limit.c:387-457 | An assert fails if and only if the GUID is new and the process is 0 or a field name is supplied twice; otherwise the tables stay views of the live sessions, which become those of the reference registry. |
| `ConnectLimit.ConnectLimit.Disconnect` | src/anvil/connect-limit.c:517-542 | The same for a disconnect. |
| `ConnectLimit.ConnectLimit.DisconnectPid` | src/anvil/connect-limit.c:562-569 | The same for the end of a process. |
| `ConnectLimit.ConnectLimit.Deinit` | src/anvil/connect-limit.c:150-179 | Leaves every table empty, so all its asserts hold; nothing is leaked. |
| `ConnectLimit.ConnectLimit.IterBegin` | src/anvil/connect-limit.c:647-675 | Returns exactly the live sessions of the user, or the one asked for, sorted; the registry is unchanged but for held strings. |
| `ConnectLimit.ConnectLimit.IterBeginAltUsername` | src/anvil/connect-limit.c:677-709 | Returns exactly the live sessions that supplied this value for this field, except those at the given IP, sorted. |
| `ConnectLimit.ConnectLimit.IterDeinit` | src/anvil/connect-limit.c:724-734 | Gives the held strings back, whatever happened to the registry in between. |
| `SessionIter.SortReturns` | src/anvil/connect-limit.c:623-632 | Sorting keeps the results and orders them strictly by process, then GUID. |
| `SessionIter.OneKickType` | src/anvil/connect-limit.c:200-220 | All results of one process have the same kick type. |
| `RegistryRuns.Replay` | src/anvil/connect-limit.c:387-569 | Any run of connects, disconnects and process ends is handled up to the first connect that asserts, and no other event does; if there is none the class is consistent and holds the live sessions of the reference run. |
| `RegistryRuns.ConnectPanics` | src/anvil/anvil-connection.c:381-436 | A connect of process 0 and a connect with a repeated field name, either of which asserts. |
| `RegistryRuns.LiveIffOpen` | src/anvil/connect-limit.c:387-569 | A session is live after a run exactly if a connect of it was accepted and nothing ended it since. |
| `RegistryRuns.LatestKickType` | src/anvil/connect-limit.c:201-219 | After any run a process is known exactly if it has a live session, and its kick type is that of its latest connect that was accepted. |
| `RegistryRuns.RunUnique` | src/anvil/connect-limit.c:400-409 | In no run are two live sessions under one GUID. |
| `RegistryRuns.ConnectDisconnect` | src/anvil/connect-limit.c:387-542 | A disconnect right after a connect leaves the other sessions as they were. |
| `RegistryRuns.ConnectCounts` | src/anvil/connect-limit.c:181-193 | A connect raises the count of its user, protocol and IP by one, and no other; a proxied session raises none. |
| `LdapWire.NoSendDuringBind` | src/auth/db-ldap.c:165-305 | In traffic that the monitor accepts nothing is sent while a bind is outstanding (section 4.2.1 of RFC 4511). |
| `LdapWire.NoBindDuringSearch` | src/auth/db-ldap.c:165-305 | In accepted traffic no bind is sent while a search is outstanding (section 4.2.1 of RFC 4511). |
| `LdapWire.SearchesAsDefault` | src/auth/db-ldap.c:199-223 | In accepted traffic every search follows a successful bind to the default DN on the same connection, with no bind in between. |
| `LdapWire.SentInOrder` | src/auth/db-ldap.c:225-305 | In accepted traffic the requests of one connection go out in submission order, resent ones too. |
| `LdapPipeline.NewInv` | src/auth/db-ldap.c:1456-1501 | A new connection satisfies the pipeline invariant: the sent requests are the first pending ones of the queue, in submission order; the connection state fixes what is outstanding; every submitted request is queued or has had its one terminal callback; the server is where the client believes it is. |
| `LdapPipeline.CloseConn` | src/auth/db-ldap.c:941-977 | Sent requests go back to being queued in their places, from any state between two steps; the invariant holds afterwards. |
| `LdapPipeline.BindDefault` | src/auth/db-ldap.c:708-739 | The default bind is sent and nothing else can be until it is answered, or the connection is closed. |
| `LdapPipeline.Connect` | src/auth/db-ldap.c:856-899 | A disconnected connection gets a default bind under way or stays disconnected; any other is left alone. Requests are left waiting without a timeout if and only if StartTLS fails on a connection that has no abort timer. |
| `LdapPipeline.Reconnect` | src/auth/db-ldap.c:118-123 | Nothing is pending afterwards, all requests are still queued with their send counts, no callback is made, and no request waits without a timeout. A new default bind is under way if and only if StartTLS worked and the library sent one; otherwise the handle is closed again. |
| `LdapPipeline.QueueNext` | src/auth/db-ldap.c:225-305 | Keeps the invariant. If it is the next request's turn it is sent, or dropped with NULL when it is broken or was sent three times; a search that finds another user bound starts the default bind; otherwise nothing changes. |
| `LdapPipeline.QueueConnected` | src/auth/db-ldap.c:236-270 | The same, given a connection. |
| `LdapPipeline.SendNext` | src/auth/db-ldap.c:272-304 | Sends, drops or, on connection problems, reconnects; a request is never sent more than three times. |
| `LdapPipeline.SentInv` | src/auth/db-ldap.c:165-223 | Sending the next request keeps the invariant: the sent ones stay a prefix of the queue in submission order, the server expects what was sent, and a bind leaves nothing else to be sent. |
| `LdapPipeline.DroppedInv` | src/auth/db-ldap.c:300-304 | Dropping a request that was not sent, with its NULL callback, keeps the invariant. |
| `LdapPipeline.SendAll` | src/auth/db-ldap.c:363-384 | Requests are sent or dropped one after the other, each when it is its turn, until nothing more can be done or the connection has to be reopened or bound to the default DN; afterwards nothing can be done until the server or a timeout acts. |
| `LdapPipeline.Abort` | src/auth/db-ldap.c:386-422 | Drops exactly the longest prefix of timed out requests, up to the given number, each with one NULL callback. |
| `LdapPipeline.CheckHanging` | src/auth/db-ldap.c:307-326 | A queue whose oldest request is not too old is left alone; otherwise exactly the longest prefix of requests that are not from the future is dropped, the connection reopened (it is stated when a new bind is under way), and the rest kept. |
| `LdapPipeline.Submit` | src/auth/db-ldap.c:328-340 | After the check for a hanging connection the request joins the queue behind all others, and then the one attempt to send comes to what it says of the next request; a queue in which nothing could be done stays so. |
| `LdapPipeline.StaysSettled` | src/auth/db-ldap.c:225-340 | One attempt is enough for a request added to a queue in which nothing could be done. |
| `LdapPipeline.FindRequest` | src/auth/db-ldap.c:424-446 | The early-stopping scan finds a request exactly if one is queued under that message ID, and it is among the sent ones. |
| `LdapPipeline.ResultReply` | src/auth/db-ldap.c:503-558 | A search leaves the queue with its kept entry and its final callback, or with NULL if it failed. |
| `LdapPipeline.EntryReply` | src/auth/db-ldap.c:529-558 | Iterations get an entry at once; a plain search keeps the first and fails at the second. |
| `LdapPipeline.TakeReply` | src/auth/db-ldap.c:485-558 | What each kind of reply does to its search. |
| `LdapPipeline.HandleReply` | src/auth/db-ldap.c:469-568 | The answer to a bind leaves the connection bound as that user; the answer to a search has its effect on the search and on requests sent earlier. The invariant is kept if and only if a bind is not answered by a search entry; that leaves the connection bound with the bind request still pending. |
| `LdapPipeline.SearchCalls` | src/auth/db-ldap.c:501-558 | What the caller of a search gets for any number of entries and the final reply: an iteration each entry and the end, a plain search its one entry and the end, and nothing but NULL if there were more or the search failed. |
| `LdapPipeline.AbortLost` | src/auth/db-ldap.c:560-566 | Exactly the longest prefix of old requests sent before an answered one is dropped, and then the connection is reopened with the rest, where it is stated when a new bind is under way; if there is none nothing changes. |
| `LdapPipeline.DefaultBindReply` | src/auth/db-ldap.c:342-384 | After a successful default bind the queue is sent: requests go out or are dropped one after the other, each in its turn and as the library allows, until nothing more can be sent or the connection has to be reopened or bound again. After a failed one the connection is closed with all requests queued. |
| `LdapPipeline.HeadGoesOut` | src/auth/db-ldap.c:165-305 | Whenever the queue is sent, the request whose turn it is goes out first, if the library can send it. |
| `LdapPipeline.BoundSends` | src/auth/db-ldap.c:342-384 | After a successful default bind the oldest request goes out, if it has attempts left and the library can send it. |
| `LdapConnection.HandleMessage` | src/auth/db-ldap.c:604-630 | A message finishes the default bind with all that follows, answers its request, or reopens the connection if nobody asked; the invariant is kept. |
| `LdapConnection.HandleAbortTimer` | src/auth/db-ldap.c:929-939 | While disconnected, exactly the timed out requests at the front are failed, and the timer stays if and only if requests are left. |
| `LdapConnection.Handle` | src/auth/db-ldap.c:632-693 | For every event it is stated what it leads to: which requests are sent, dropped or answered, and whether the connection is closed, reopened, or bound again. The invariant is kept, what was sent and called stays so, and after the input has been read nothing that could be sent is left unsent; requests have a timeout unless StartTLS fails. |
| `LdapConnection.HandleRequest` | src/auth/db-ldap.c:307-340 | A new request joins the queue after the check for a hanging connection; then one attempt to send is made. |
| `LdapConnection.HandleFailure` | src/auth/db-ldap.c:656-692 | The connection is closed if the server has closed it, nothing is queued and it was idle for a minute; in any other case it is reopened, and it is stated when a new bind is under way. |
| `LdapConnection.HandleConnectTimer` | src/auth/db-ldap.c:901-905 | One attempt to connect: a bind is under way if and only if StartTLS worked and the library sent one. |
| `LdapConnection.LdapConnection.Dispatch` | src/auth/db-ldap.c:632-693 | The same, for the connection object. |
| `LdapConnection.Run` | src/auth/db-ldap.c:225-977 | In any run of events, with any behaviour of the library, every state satisfies the invariant, every event has exactly the effect stated for it, each request is counted, and what was sent and called only grows, so the traffic and the callbacks recorded are those of the whole run. |
| `LdapConnection.Next` | src/auth/db-ldap.c:632-693 | One step of a run: an event that can happen has its effect, any other none. |
| `LdapConnection.EveryRequest` | src/auth/db-ldap.c:272-304 | In every state of every run a submitted request has had no terminal callback while it is queued and exactly one, its last, afterwards; it was sent at most three times. |
| `LdapConnection.EveryMessage` | src/auth/db-ldap.c:165-305 | In every run: nothing sent while a bind is outstanding, no bind while a search is, searches only as the default DN, requests in submission order, at most nine outstanding. |
| `LdapConnection.EntryAnswersBind` | src/auth/db-ldap.c:469-500 | A run in which a search entry answers a bind: the connection counts as bound while the bind is still pending, so the assert of its next reply fails. |
| `LdapConnection.WaitsUnattended` | src/auth/db-ldap.c:878-890 | A run that leaves a request queued, disconnected and without a timeout. |
| `LdapEscape.SpecialAfter` | src/auth/db-ldap.c:1099-1139 | The next character that needs escaping. |
| `LdapEscape.Escape` | src/auth/db-ldap.c:1066-1140 | Any C string that is not UTF-8 is first repaired, and the result is the escaped form defined character by character; its octets are all harmless. |
| `LdapEscape.NextEscape` | src/auth/db-ldap.c:1099-1139 | The next position that needs escaping: a special character, a leading "#" or space, a trailing space. |
| `LdapEscape.EscapeChars` | src/auth/db-ldap.c:1099-1140 | The loop computes the escaped form defined character by character. |
| `LdapEscape.RoundTrip` | src/auth/db-ldap.c:1066-1140 | Reading every \\hh of the output as one octet gives back what was escaped (section 3 of RFC 4515, section 2.4 of RFC 4514). |
| `LdapEscape.RoundTripIff` | src/auth/db-ldap.c:1085-1140 | For any input what is read back is UTF-8, and it is the input if and only if the input is UTF-8. |
| `LdapEscape.OutputIsSafe` | src/auth/db-ldap.c:1066-1140 | No octet of the output is one of * ( ) + , < > ; = , the double quote or a control character; every backslash is followed by two hexadecimal digits; no leading "#" or space, no trailing space. |
| `LdapEscape.PlainStays` | src/auth/db-ldap.c:1066-1140 | No other octet is escaped: it stands for itself, after what comes before it and before what comes after it. |
| `Utf8.CharsOfRfc3629` | src/lib/unichar.c:30-105 | The bit arithmetic accepts a character of n octets exactly if they are in the ranges of the grammar of RFC 3629, section 4: no overlong forms, no surrogates, nothing above U+10FFFF. |
| `Utf8.ValidAppend` | src/lib/unichar.c:523-542 | UTF-8 strings can be put together. |
| `Utf8.FindInvalid` | src/lib/unichar.c:523-542 | Finds the first octet that starts no character, exactly if the string is not UTF-8. |
| `Utf8.GetValidData` | src/lib/unichar.c:544-572 | A string that is not UTF-8 becomes its repaired form: characters are kept, and any number of other octets in a row become one replacement character, or none after one that is there already. |
| `Utf8.RepairFrom` | src/lib/unichar.c:553-571 | The loop computes the repaired form from any point on. |
| `Utf8.RepairedValid` | src/lib/unichar.c:544-572 | The repaired form is UTF-8, and has no zero octet if the string had none. |
| `Utf8.RepairedSame` | src/lib/unichar.c:544-572 | A string is its own repaired form if and only if it is UTF-8. |
| `AuthWorkers.RequestSend` | src/auth/auth-worker-connection.c:86-138 | A stale request fails, any other goes to the worker; started requests stay in submission order. A request is stale if and only if it is 60 seconds old, as long as ages fit 32 bits. |
| `AuthWorkers.SendNext` | src/auth/auth-worker-connection.c:140-152 | Afterwards nobody idles while requests wait. |
| `AuthWorkers.FedMeans` | src/auth/auth-worker-connection.c:140-152 | Exactly the stale requests at the front of the queue fail, and the next one goes to the worker. |
| `AuthWorkers.Create` | src/auth/auth-worker-connection.c:226-255 | A worker is created unless the throttled limit is reached; the first one always may be. |
| `AuthWorkers.WithoutCore` | src/auth/auth-worker-connection.c:257-288 | Taking a worker out, its request failing, keeps the invariant; the asserts about the counters hold. |
| `AuthWorkers.Deinit` | src/auth/auth-worker-connection.c:257-294 | The worker's request fails, the counters follow, and if nobody is idle a replacement takes over the queue. Requests are left without any worker if and only if the only one leaves while some wait and is not replaced. |
| `AuthWorkers.GoneStranded` | src/auth/auth-worker-connection.c:257-294 | The exact condition under which a leaving worker leaves requests without any worker. |
| `AuthWorkers.GoneWasted` | src/auth/auth-worker-connection.c:257-294 | Whether requests wait beside room for another worker after one has left and was perhaps replaced. |
| `AuthWorkers.Replace` | src/auth/auth-worker-connection.c:289-293 | A new worker takes the first request that is not stale; afterwards nobody idles while requests wait. |
| `AuthWorkers.FindFree` | src/auth/auth-worker-connection.c:296-312 | The idle count is zero exactly if no worker is free, so the search cannot fail. |
| `AuthWorkers.Call` | src/auth/auth-worker-connection.c:482-513 | A request is queued exactly if others wait already, or nobody is free and nobody can be created; else it is started at once. |
| `AuthWorkers.RequestHandle` | src/auth/auth-worker-connection.c:314-348 | The last line completes the request and frees its worker; other lines only move the timer. |
| `AuthWorkers.Reply` | src/auth/auth-worker-connection.c:393-451 | A reply to no known request kills the worker; after the last line the worker restarts, stops or takes the next request; with the exact condition under which requests are left without any worker. |
| `AuthWorkers.KnownReply` | src/auth/auth-worker-connection.c:412-451 | The same for a reply to the request the worker has. |
| `AuthWorkers.AfterLast` | src/auth/auth-worker-connection.c:438-450 | What a worker without a request does next, keeping the invariant. |
| `AuthWorkers.HandleError` | src/auth/auth-worker-connection.c:350-373 | The first failing worker freezes the pool at its size; any further one is stopped and the limit lowered, not above the workers left and never below one. No request is failed other than that of the stopped worker; the queue stays. |
| `AuthWorkers.FedFinishes` | src/auth/auth-worker-connection.c:86-152 | Feeding a worker completes no request other than stale ones. |
| `AuthWorkers.GoneFinishes` | src/auth/auth-worker-connection.c:257-294 | Stopping a worker, and what its replacement does, completes no request other than its own and stale ones. |
| `AuthWorkers.HandleSuccess` | src/auth/auth-worker-connection.c:375-391 | If no failing worker is left the limit is the process limit again; otherwise it rises by one, up to the process limit. It drops to zero if and only if the last failing worker recovers while the process limit is zero. |
| `AuthWorkers.ReadHello` | src/auth/auth-worker-connection.c:154-182 | What a handshake line does to the limits, and when it fails. |
| `AuthWorkers.Handshake` | src/auth/auth-worker-connection.c:154-182 | After a successful handshake at least one worker may exist; a failed one ends the connection. |
| `AuthWorkers.IdleTimeout` | src/auth/auth-worker-connection.c:69-77 | An idle worker is stopped unless it is the last idle one. |
| `AuthWorkers.Kill` | src/auth/auth-worker-connection.c:79-84 | The worker is gone and perhaps replaced. |
| `AuthWorkers.Resume` | src/auth/auth-worker-connection.c:453-460 | Only the timer of a busy worker changes. |
| `AuthWorkers.Mark` | src/auth/auth-worker-connection.c:405-411 | Only the flag changes. |
| `AuthWorkers.Handle` | src/auth/auth-worker-connection.c:86-527 | Every event keeps the invariant: submitted requests are the started ones followed by the queue; every started one is with exactly one worker or completed once; the counters count; nobody idles while requests wait. What was started and completed stays so, and no request is completed other than one a worker has, or a stale one that waits. Requests come to wait without any worker if and only if a call finds none and cannot create one, or the last worker leaves without a replacement while requests wait. After each event it is stated exactly when requests wait although another worker could be created. |
| `AuthWorkers.HandleCall` | src/auth/auth-worker-connection.c:482-513 | The same for a call. |
| `AuthWorkers.HandleOther` | src/auth/auth-worker-connection.c:69-391 | The same for the events that are neither calls, replies nor handshakes; of these only the death of the last worker leaves requests without one. |
| `AuthWorkers.OpensIff` | src/auth/auth-worker-connection.c:495-498 | The events that let requests wait although another worker could be created, where this was not so before: a failed connection for a new request, a worker that leaves the last room unreplaced, a rising limit, a limit of zero. |
| `AuthWorkers.AuthWorkers.constructor` | src/auth/auth-worker-connection.c:529-538 | An empty pool. |
| `AuthWorkers.AuthWorkers.Dispatch` | src/auth/auth-worker-connection.c:86-527 | The same for the pool of the process; the throttle count stays positive unless a handshake announces a process limit of zero. |
| `AuthWorkers.Run` | src/auth/auth-worker-connection.c:86-527 | In any run of events every state satisfies the invariant, each call is counted, no step completes a request other than one a worker has or a stale one, and what was started and completed only grows, so the record is that of the whole run. |
| `AuthWorkers.LeftStranded` | src/auth/auth-worker-connection.c:438-450 | A run that leaves a request queued with no worker: it waits behind the only one, which shuts down after its last line. |
| `AuthWorkers.StrandedForever` | src/auth/auth-worker-connection.c:482-513 | Once requests wait without any worker it stays so to the end of any run, and nothing is started or completed any more. |
| `AuthWorkers.WaitsBesideRoom` | src/auth/auth-worker-connection.c:495-498 | A run in which a request waits although another worker could be created: one of two workers shuts down after its last line. |
| `AuthWorkers.EveryRequest` | src/auth/auth-worker-connection.c:86-152 | In every state of every run a request is queued, or with exactly one worker, or completed by exactly one callback. |
| `AuthWorkers.ThrottleDropsToZero` | src/auth/auth-worker-connection.c:163-174 | A run in which the throttle count, positive after a handshake, becomes zero. |
| `LruSpec.EvictionsMinimal` | src/auth/auth-cache.c:434-436 | The evicted entries are the shortest oldest prefix that makes room. |
| `LruSpec.RoomMade` | src/auth/auth-cache.c:434-436 | Evicting makes enough room for anything that fits the budget. |
| `LruSpec.DropKeyMembers` | src/auth/auth-cache.c:467-478 | Dropping a key removes exactly its entry. |
| `LruSpec.StoredInvariant` | src/auth/auth-cache.c:416-465 | Storing an entry that fits keeps keys unique and the total within the budget, with the entry newest. |
| `AuthCache.NodeList.Unlink` | src/auth/auth-cache.c:160-176 | The pointers link the list without the node. |
| `AuthCache.NodeList.LinkHead` | src/auth/auth-cache.c:178-190 | The pointers link the list with the node as its head. |
| `AuthCache.NodeList.MoveToHead` | src/auth/auth-cache.c:399-406 | The pointers link the list with the node moved to its head. |
| `AuthCache.UniqueView` | src/auth/auth-cache.c:192-202 | The hash table holds exactly the keys of the listed entries, each once. |
| `AuthCache.Cache.constructor` | src/auth/auth-cache.c:204-219 | An empty cache with its whole budget free. |
| `AuthCache.Cache.Destroy` | src/auth/auth-cache.c:192-202 | List, hash table and free bytes lose exactly the node; free and used bytes still make up the budget. |
| `AuthCache.Cache.Remove` | src/auth/auth-cache.c:467-478 | The entries without that key, in the same order. |
| `AuthCache.Cache.Clear` | src/auth/auth-cache.c:254-262 | Nothing is left, all bytes are free, and the count is right. |
| `AuthCache.Cache.Lookup` | src/auth/auth-cache.c:371-414 | Returns the entry of the key with its expiry; an unexpired hit becomes the newest entry, and nothing else moves. |
| `AuthCache.UserOfKey` | src/auth/auth-cache.c:264-295 | Every key that the cache is used with names its user: after the database, and the master user if there is one. |
| `AuthCache.Cache.Insert` | src/auth/auth-cache.c:416-465 | In any state the entry is stored as the newest, after evicting the oldest until there is room and any entry of its key. In a balanced cache that is the shortest prefix, and free and used bytes still make up the budget if and only if the entry fits the budget and 31 bits. |
| `AuthCache.Cache.BalancedIff` | src/auth/auth-cache.c:192-202 | In any state that insertions, removals and evictions lead to, free and used bytes make up the budget if and only if the entries fit it and no bytes were lost to the 31 bits of a node. |
| `AuthCache.TooLarge` | src/auth/auth-cache.c:416-465 | An entry larger than the cache, after which the byte accounting is wrong. |
| `AuthCache.Cache.MakeRoom` | src/auth/auth-cache.c:434-436 | In any state evicts the oldest entries until there is room as the free bytes are counted or nothing is left; in a balanced cache exactly the shortest prefix. |
| `AuthCache.Cache.Add` | src/auth/auth-cache.c:444-456 | Links the new node and takes its bytes; a balanced budget is kept exactly if the entry fits it and 31 bits. |
| `AuthCache.Cache.ClearUsers` | src/auth/auth-cache.c:309-323 | Removes exactly the entries of matching users, keeping the order of the rest, and counts them. |
| `AuthCache.Cache.SweepFrom` | src/auth/auth-cache.c:309-323 | The walk from tail to head that removes nodes on its way. |
| `AuthCache.Cache.SweepOne` | src/auth/auth-cache.c:314-321 | One round of the walk. |
| `PenaltySpec.MruPosition` | src/anvil/penalty.c:89-143 | In the unlimited list of last uses a checksum is preceded by exactly those used after it. |
| `PenaltySpec.FirstTenAreRecent` | src/anvil/penalty.c:231-255 | A checksum is among the first ten of that list exactly if fewer than ten others have been used since its last use. |
| `PenaltySpec.SlotsHold` | src/anvil/penalty.c:231-255 | A nonzero checksum is in the slots exactly if it is among the first ten. |
| `PenaltySpec.FreeSlot` | src/anvil/penalty.c:231-255 | Zero is in the slots exactly if one is free. |
| `PenaltySpec.SlotsBump` | src/anvil/penalty.c:89-114 | Moving a slot to the front is using its checksum in the unlimited list. |
| `PenaltySpec.SlotsAdd` | src/anvil/penalty.c:116-143 | Pushing a new checksum in front, the last falling out, is using it in the unlimited list. |
| `PenaltySpec.SlotsGrow` | src/anvil/penalty.c:130-137 | The switch from two inline slots to ten keeps their meaning. |
| `PenaltySpec.TimelineInc` | src/anvil/penalty.c:184-229 | Moving the incremented record to the end keeps the list in order of last increment. |
| `PenaltySpec.OldestDecides` | src/anvil/penalty.c:160-182 | If the oldest record has not expired, none has. |
| `PenaltySpec.IncInTime` | src/anvil/penalty.c:222-228 | A timer that was set early enough for the oldest record stays so. |
| `Penalty.MoveToFront` | src/anvil/penalty.c:103-110 | The slots before a position move up by one and the checksum comes in front. |
| `Penalty.PenaltyRec.constructor` | src/anvil/penalty.c:194-197 | A record without checksums. |
| `Penalty.PenaltyRec.Bump` | src/anvil/penalty.c:89-114 | Finds a checksum exactly if it is recent, and then records its use. |
| `Penalty.PenaltyRec.Add` | src/anvil/penalty.c:116-143 | Records the use of a checksum that is not in the slots, moving to ten slots with the third. |
| `Penalty.PenaltyRec.Stamp` | src/anvil/penalty.c:215-222 | The 15-bit offset and the time of the penalty add up to now, also when the offset is clamped. |
| `Penalty.PenaltyRec.Inc` | src/anvil/penalty.c:202-222 | The record after an increment: penalty, time and checksums. |
| `Penalty.PenaltyRec.Has` | src/anvil/penalty.c:231-255 | The search of the slots. |
| `Penalty.Store.Update` | src/anvil/penalty.c:184-222 | The record is created if needed and incremented; all others, with their slots, are untouched. |
| `Penalty.Store.Updated` | src/anvil/penalty.c:160-182 | The sum that the timeout computes in 32 bits is the time of the last increment. |
| `Penalty.Tracker.constructor` | src/anvil/penalty.c:51-59 | An empty tracker. |
| `Penalty.Tracker.SetExpireSecs` | src/anvil/penalty.c:84-87 | Raising the time keeps the timer early enough; after lowering it the timer is late by at most the difference, and a timer set to the last moment is in time if and only if the time was not lowered. |
| `Penalty.Tracker.Get` | src/anvil/penalty.c:145-158 | The penalty and its time, or zeros. |
| `Penalty.Tracker.HasChecksum` | src/anvil/penalty.c:231-255 | A nonzero checksum is found if and only if fewer than ten others have been used for that identifier since its last use, in the life of its record; zero is found if and only if a slot is free. |
| `Penalty.Tracker.Inc` | src/anvil/penalty.c:184-229 | The record of the identifier is incremented and becomes the newest; a checksum used recently costs one less and does not renew the penalty; the list stays in order of last increment, and the timer armed and early enough. |
| `Penalty.TwoFailures` | src/anvil/penalty.c:145-229 | What is reported after two failures of a user who had none: with the same checksum the second costs one less than its value and the penalty keeps its time; with another checksum, or none, it costs the full value from then on. |
| `PenaltySpec.TwoUses` | src/anvil/penalty.c:198-225 | The record after two increments of a new one. |
| `PenaltySpec.RepeatedUse` | src/anvil/penalty.c:198-225 | The same checksum again: one less than the value, and the penalty stays as old as it was, as far back as 15 bits reach. |
| `Penalty.Tracker.Timeout` | src/anvil/penalty.c:160-182 | Drops exactly the expired records, a prefix of the list, and arms the timer for the oldest one left, if any. |
| `Penalty.Tracker.Scan` | src/anvil/penalty.c:166-181 | The scan stops at the first unexpired record, having dropped expired ones only. |
| `Penalty.Arm` | src/anvil/penalty.c:174-176 | A timer counted in unsigned milliseconds never fires late, and on time unless the product overflows. |
| `PassdbChain.NeverNext` | src/auth/auth-request.c:1038-1045 | However a request ends, it does not end in NEXT. |
| `PassdbChain.SuccessMeans` | src/auth/auth-request.c:899-909 | A request that ends successfully was stopped by no lookup, and every deny database it consulted answered "user unknown". |
| `PassdbChain.InternalFailureReported` | src/auth/auth-request.c:1019-1037 | An internal failure that the chain went past is reported, unless the request succeeds or its last lookup is a deny, disabled or expired stop. |
| `PassdbChain.SkipFrom` | src/auth/auth-request.c:548-588 | The first database that is not to be skipped. |
| `PassdbChain.ApplyRule` | src/auth/auth-request.c:930-977 | Which rule applies, whether it continues, and what it does to the success and password-verified flags. |
| `PassdbChain.CheckStop` | src/auth/auth-request.c:899-929 | Which results end the chain whatever the rules say, and how a failure inside the lookup counts. |
| `PassdbChain.Proceed` | src/auth/auth-request.c:918-1046 | What the rules make of a result: the chain ends if and only if the rule does not continue or every database that follows is to be skipped, and with which result. |
| `PassdbChain.FinishLookup` | src/auth/auth-request.c:880-1058 | The flags of the request move as the trace of lookups says; the chain ends if and only if the lookup stops it, its rule does, or no database that follows is to be consulted; the result is then the verdict on the trace, and otherwise it goes on at the first one that follows. |
| `PassdbChain.HandleCallback` | src/auth/auth-request.c:1060-1077 | The same with the client certificate check; after a master login the login user takes over unless the request was marked failed. It is stated exactly when the chain ends and where it goes on. |
| `PassdbChain.VerifyPlainContinue` | src/auth/auth-request.c:1266-1306 | A lookup is made if and only if the password has no control characters and some database from here on is not to be skipped; it is the first such one. |
| `PassdbChain.LookupReturned` | src/auth/auth-request.c:1079-1112 | The request ends if and only if no database has its turn, with the result that the trace gives, or goes on in the one that has; without requested users and required certificates it only moves forward. Unless certificates are required only a deny database marks it as failed. |
| `PassdbChain.OnwardBefore` | src/auth/auth-request.c:983-998 | The database consulted next comes later: masters first, each list in order. |
| `PassdbChain.AuthRequest.constructor` | src/auth/auth-request.c:181-192 | A request before its first lookup, or ended at once if and only if no database has its turn. |
| `PassdbChain.AuthRequest.PassdbCallback` | src/auth/auth-request.c:1079-1126 | The same for the request object. |
| `PassdbChain.Authenticate` | src/auth/auth-request.c:880-1306 | Over any lookups: each is made in the database whose turn it is, with what earlier lookups left; the request ends if and only if no database has its turn, never in NEXT, with the result that the trace gives. It succeeds if and only if that is ok, the last rule that said ok or fail said ok, and no required client certificate was missing; then no deny database answered anything but "user unknown". |
| `PassdbChain.AuthenticateToEnd` | src/auth/auth-request.c:983-1077 | If lookups ask for no other user and no client certificate is required, the request ends, when no database has its turn, having consulted each master database and each database at most once, in order, and succeeds if and only if its result is ok by the last rule that decided. |
| `PassdbChain.NoneMissed` | src/auth/auth-request.c:548-588 | No database is missed: each one that is passed over, or left when the chain runs out, does not accept the mechanism or the user, or is to be skipped as it is known whether the password has been verified. |
| `PassdbChain.SuccessExact` | src/auth/auth-request.c:274-290 | A request that ended succeeds if and only if its result is ok by the last word and no certificate was missing. |
| `PassdbChain.AuthenticatedIff` | src/auth/auth-request.c:930-977 | The password counts as verified if and only if some lookup verified it. |
| `PassdbChain.OkNeedsOk` | src/auth/auth-request.c:930-977 | If no rule for failures says ok, a request that succeeds had a lookup that did, under a rule that says ok. |
| `PassdbChain.LookupCounts` | src/auth/auth-request.c:1108-1120 | A lookup counts as ok if and only if the database said so and did not set "noauthenticate"; failures stay as they are. |
| `PassdbChain.ControlCharacters` | src/auth/auth-request.c:1273-1290 | With one of four control characters in the password no database is consulted, and the user counts as unknown. |
| `PassdbChain.PassedOver` | src/auth/auth-request.c:548-588 | Only databases to be skipped come before the first that is not. |
| `PassdbChain.ConsultedRight` | src/auth/auth-request.c:548-588 | A database is consulted only for mechanisms and users it accepts, and only before or after the password has been verified if it is to be skipped otherwise. |
| `AuthFields.PutLookups` | src/auth/auth-fields.c:57-80 | Setting a field changes the lookup of its key only. |
| `AuthFields.DeleteLookups` | src/auth/auth-fields.c:82-90 | Deleting a field removes the lookup of its key only. |
| `AuthFields.AuthFields.constructor` | src/auth/auth-fields.c:18-25 | No fields and no snapshot. |
| `AuthFields.AuthFields.Preserve` | src/auth/auth-fields.c:27-35 | The snapshot is copied if there is one that has no copy. |
| `AuthFields.AuthFields.FindIdx` | src/auth/auth-fields.c:37-55 | The first field with that key, or none if there is none. |
| `AuthFields.AuthFields.Find` | src/auth/auth-fields.c:92-103 | The value of the key. |
| `AuthFields.AuthFields.Add` | src/auth/auth-fields.c:57-80 | The field is set in its place, or appended; keys stay unique; the snapshot is copied only before a change. |
| `AuthFields.AuthFields.Remove` | src/auth/auth-fields.c:82-90 | The field is deleted; the snapshot is copied only before a change. |
| `AuthFields.AuthFields.Reset` | src/auth/auth-fields.c:110-116 | No fields; the snapshot is copied first. |
| `AuthFields.AuthFields.Snapshot` | src/auth/auth-fields.c:203-220 | The fields are what a rollback will restore. |
| `AuthFields.AuthFields.Rollback` | src/auth/auth-fields.c:222-232 | The last snapshot comes back as a prefix, with nothing after it if and only if its copy was not made after a field was appended; without any snapshot nothing is left. |
| `AuthFields.EditAndRollback` | src/auth/auth-fields.c:57-232 | A snapshot, any edits and a rollback give back the fields, and nothing else if and only if there was a copy before or no field is added before the first change of an existing one. |
| `AuthFields.LateCopy` | src/auth/auth-fields.c:27-35 | A rollback that leaves a field added after the snapshot. |
| `KickDriver.OneCommandPerSession` | src/anvil/anvil-connection.c:304-336 | One command per session that is kicked through a socket, in the order of the results. |
| `KickDriver.EachSignalledOnce` | src/anvil/anvil-connection.c:288-303 | A process to be signalled gets exactly one signal, and one to be signalled with a command one per command. |
| `KickDriver.RegistryResults` | src/anvil/connect-limit.c:647-709 | Results of the registry have one kick type per process. |
| `KickDriver.KickNext` | src/anvil/anvil-connection.c:285-338 | One result: the signal or command it asks for, the counts, and whether the signal could be sent. |
| `KickDriver.IterMore` | src/anvil/anvil-connection.c:272-344 | Goes on until the results or the allowance of outstanding commands run out, having done exactly what the results so far ask for, and counted each signal that could be sent; it comes to the end if and only if what is left to send stays below the limit. |
| `KickDriver.Driver.constructor` | src/anvil/anvil-connection.c:77-87 | No kicks. |
| `KickDriver.Driver.Start` | src/anvil/anvil-connection.c:346-361 | A new kick, with its results, comes first in the list and goes as far as it can; its count is the number of its signals that could be sent; all others stay as they are. A kick that still iterates has a resume pending or a command of such a kick outstanding, whose answer causes one. |
| `KickDriver.Driver.More` | src/anvil/anvil-connection.c:272-344 | A suspended kick goes on where it was; it is suspended again if and only if what it has left to send reaches the limit. |
| `KickDriver.Driver.Store` | src/anvil/anvil-connection.c:190-202 | A kick that is complete leaves the list with one reply; the global count is the sum of the outstanding commands of all kicks and within the limit. Each kick ever started is in the list, newest first, or complete with one reply. |
| `KickDriver.Driver.Callback` | src/anvil/anvil-connection.c:216-252 | A command was answered: its number is added to the count of the kick, the outstanding ones go down by one, a kick without any left is complete, and one that still iterates has a resume pending; no kick that iterates is ever left without a resume to come. All kicks keep their results and what was done for them. |
| `KickDriver.Driver.KickMore` | src/anvil/anvil-connection.c:204-214 | Every kick keeps its results, counts each signal that could be sent, goes on from where it was, and keeps what was done for it; replies given stay. The newest kicks come to their end, up to one that is suspended at the limit; the older ones are as before. The iterators closed are those whose strings are no longer held. The walk uses a closed iterator if and only if some kick iterates no more, all newer ones do, and what these have left to send stays below the limit. |
| `KickDriver.Driver.Resume` | src/anvil/anvil-connection.c:204-214 | One round of the walk: the kick goes on from where it was with its own results, and closes its iterator or is suspended at the limit; all others stay as they are. |
| `KickDriver.CrashesIff` | src/anvil/anvil-connection.c:204-214 | The walk round by round meets a closed iterator exactly under that condition on the list. |
| `KickDriver.SomeOpenWaits` | src/anvil/anvil-connection.c:239-243 | If not all outstanding commands are of kicks that iterate no more, a kick that iterates has one. |
| `KickDriver.ResumeCrashes` | src/anvil/anvil-connection.c:204-214 | A run in which the walk meets a newer kick that has sent all its commands and waits for an answer. |
| `KickDriver.CompleteMeans` | src/anvil/anvil-connection.c:204-361 | However it was suspended and resumed, a complete kick of live sessions has signalled every process of a wanted session once if it is to be signalled, once per command if it is to be signalled with a command, and no other process; it has sent exactly one command for each wanted session kicked through a socket, and no other. |
| `KickDriver.LedgerPut` | src/anvil/anvil-connection.c:190-202 | If each kick started is in the list, newest first, or complete with one reply, then so it is after one of them has changed, or has left the list with its reply. |
| `KickDriver.ReleasedPut` | src/anvil/anvil-connection.c:339-343 | A kick that closes its iterator gives back exactly the strings it held. |
| `KickRuns.EveryKick` | src/anvil/anvil-connection.c:190-361 | Each kick that was ever started is in the list with its own results, or complete with exactly one reply, whose number is that of the signals that could be sent plus the sum of the answers, and then it has done exactly what it was started for: signals and commands for the sessions that were live at its start. |
| `KickRuns.Anvil.constructor` | src/anvil/anvil-connection.c:902-908 | No sessions and no kicks. |
| `KickRuns.Anvil.Begin` | src/anvil/anvil-connection.c:346-361 | The registry holds the strings of exactly the kicks that still iterate, also if the kick comes to its end at once. |
| `KickRuns.Anvil.StartKick` | src/anvil/anvil-connection.c:346-361 | The new kick has its results and is after the sessions they were found among. |
| `KickRuns.Anvil.UserKicked` | src/anvil/anvil-connection.c:363-370 | A kick is started after exactly the live sessions of the user, or the one asked for; the registry and all other kicks are as before. |
| `KickRuns.Anvil.AltUserKicked` | src/anvil/anvil-connection.c:372-381 | The same for an alternative username, except the sessions at an IP. |
| `KickRuns.Anvil.Registered` | src/anvil/anvil-connection.c:383-470 | Connects and disconnects affect no kick under way, and the strings its results refer to stay. |
| `KickRuns.Anvil.Answered` | src/anvil/anvil-connection.c:216-252 | The answer is counted for its kick and no other; registry and kicks stay consistent, and what open iterators hold. |
| `KickRuns.Anvil.Resumed` | src/anvil/anvil-connection.c:204-214 | Unless the walk meets a closed iterator, the exact condition being that of the driver, the registry gets back exactly the strings of the iterators that came to their end, and every kick goes on from where it was. |
| `KickRuns.CloseAll` | src/anvil/anvil-connection.c:340-340 | Closing iterators gives back exactly the strings they hold. |
| `KickRuns.Anvil.Handle` | src/anvil/anvil-connection.c:190-470 | Any event keeps registry and kicks consistent, or stops the process exactly in the cases stated for the registry and for the walk; kicks keep their results and what was done for them, and an answer is counted for its kick, each signal that could be sent is counted, and a new kick is after the sessions live at its start. |
| `KickRuns.Next` | src/anvil/anvil-connection.c:190-470 | The same, where an event that cannot happen has no effect; the process stops exactly in the cases stated. |
| `KickRuns.Run` | src/anvil/anvil-connection.c:190-470 | In any run of connects, disconnects, kicks, answers and resumes each event has exactly its effect on registry and kicks, up to the first that stops the process, which is one of the cases stated; every kick started keeps its results and goes on from where it was. At the end each is in the list, or complete, replied to once with the number of its signals and answers, and has done what it was started for. |
| `KickRuns.RegistryAlone` | src/anvil/anvil-connection.c:190-470 | After any run the registry is what its own events alone make of it: kicks leave no trace in it. |
| `KickDriver.SignalsRight` | src/anvil/anvil-connection.c:288-303 | The number of signals to each process, for results of the registry. |
| `AuthCache.NodeList.constructor` | src/auth/auth-cache.c:204-219 | An empty list. |
| `AuthCache.Cache.Visit` | src/auth/auth-cache.c:314-321 | The next node is remembered before this one may be destroyed. |
| `AuthCache.Cache.DestroyTail` | src/auth/auth-cache.c:434-436 | The oldest entry is gone and its bytes are free. |
| `AuthWorkers.Enqueue` | src/auth/auth-worker-connection.c:509-512 | A request that cannot be started waits at the end of the queue. |
| `AuthWorkers.StartOn` | src/auth/auth-worker-connection.c:506-508 | A new request is never stale, so it is sent. |
| `AuthWorkers.Shrink` | src/auth/auth-worker-connection.c:365-372 | A further failing worker is stopped and the limit lowered. |
| `LdapPipeline.HandleSearchReply` | src/auth/db-ldap.c:485-568 | A reply to a search, and exactly which requests sent earlier are dropped for it. |
| `LdapPipeline.Enqueue` | src/auth/db-ldap.c:328-340 | The request is appended behind all others, and one attempt to send is made with the outcome stated for it. |
| `LdapPipeline.AbortHead` | src/auth/db-ldap.c:403-417 | The oldest request leaves the queue with a NULL callback, and the pending count follows if it was sent. |
| `LdapPipeline.SetFlags` | src/auth/db-ldap.c:541-545 | A request that failed half-way or keeps an entry is a plain search. |
| `LdapConnection.LdapConnection.constructor` | src/auth/db-ldap.c:1456-1501 | A new connection satisfies the invariant. |
| `ConnectLimit.PopSession` | src/anvil/connect-limit.c:544-560 | The first session of the process is taken out of its list and of every table. |
| `ConnectLimit.ResultOf` | src/anvil/connect-limit.c:659-670 | What an iterator returns for one session. |
| `Penalty.Store.Change` | src/anvil/penalty.c:202-222 | Incrementing one record leaves all others, and their slots, alone. |
| `Penalty.Store.Ensure` | src/anvil/penalty.c:193-200 | There is a record for the identifier, a new one if there was none. |
| `Penalty.Store.Drop` | src/anvil/penalty.c:179-180 | One record is gone, the others are untouched. |
| `Penalty.Store.Get` | src/anvil/penalty.c:145-158 | The stored penalty and its time. |
| `Penalty.Store.HasChecksum` | src/anvil/penalty.c:231-255 | The search, in terms of the list of last uses. |
| `AuthFields.Apply` | src/auth/auth-fields.c:57-116 | One edit decides whether the snapshot is copied late. |

## Left out

- Sockets, streams, the I/O loop, logging, process titles and settings are not modelled; a timer is a flag, or a time at which it fires.
- Hash tables and ring buffers are maps and sequences; the linked lists of the registry, the penalty tracker and the kick list are sequences (the auth cache models the pointers of such a list).
- The registry's `connect_limit_dump()`, the tracker's `penalty_dump()` and the cache's statistics only read state.
- Callbacks are made after the step that causes them: a callback that issues a new request, or a kick command that fails inside the call that sends it, is not modelled.
- The LDAP SASL bind, named results of multi-attribute queries and shutdown (aborting all requests) are not modelled; neither is pausing the input of a connection.
- LdapConnection.Handle: assumes that the library hands out unused message IDs and that a bind is not answered by a search entry.
- AuthWorkers.Reply: the callback of a last line is taken not to pause the worker; reply texts are not parsed, and dropping the queue at shutdown is not modelled.
- Cache keys and values are given; the expansion of key templates and the wildcard matching of user masks are inputs.
- AuthCache.Cache.SweepFrom: the loop of `auth_cache_clear_users()` is written as a tail-recursive method.
- Penalty.Tracker.Inc: requires a clock that does not go back and fits 32 bits; with a clock that goes back the code asserts.
- The userdb chain, credential lookups, the passdb cache, the policy server and the fields a lookup returns are not part of the password chain's model; filters are inputs.
- PassdbChain.FinishLookup: the delay before an internal failure is reported is not modelled, only the report.
- AuthFields.AuthFields.Add: field flags are not modelled.
- KickRuns.Anvil.Resumed: iterators that come to their end in a walk over the kicks are closed after the walk, not within it.
- A kick whose connection has gone is replied to all the same; process IDs are not negative, as the parser ensures.
- KickDriver.Driver.Callback: the 32-bit wrap-around of the kick count is not modelled.
- The admin client pool is not modelled.
