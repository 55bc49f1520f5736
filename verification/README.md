# A Dafny model of libptytty

libptytty opens pseudo terminals and records sessions for programs such as terminal emulators. When it runs with raised
privileges it forks a helper process that keeps them: clients hold proxy objects and ask the helper, over a socket, to
make a pty, to log a session in, or to destroy the object again. The project models that design and the two pieces of
self-contained machinery under it, and proves what they are for.

* `Protocol.dfy`: any number of proxies in any number of forked processes share one command socket and one token socket
  with the helper (`src/proxy.C`, reentrant build). A transition system with one action per send, receive or local act;
  the theorems hold in every state of every run. `Registry.dfy` is the atomic registry the run is compared with, and
  `Ownership.dfy` says which object is behind an address, with forks that copy owners and addresses that are used again;
  `Proxies.dfy` where the descriptors of a proxy come from; `Completion.dfy` what can always still happen: every
  operation can be carried through, and the helper can always come to its exit.
* `Helper.dfy`: the helper's own loop, over a heap of pty objects with reusable addresses, its descriptor table and the
  session database; `Ptytty.dfy` (`src/ptytty.C`), `Session.dfy` (`src/logging.C`), `FdPass.dfy` (`src/fdpass.C`) and
  `Os.dfy` are what it calls. What the system answers to a call is a parameter or an arbitrary choice.
  `Descriptors.dfy`, `Accounts.dfy`, `Ledgers.dfy` and `Snapshots.dfy` say, as values, what the helper's descriptors,
  session entries and files have to look like, and what each command does to them.
* `Composition.dfy`: the protocol with the helper's effects in the step that executes a command, so descriptor and
  session conservation hold in every state of every run, and what a proxy holds is what the helper handed over.
* `I2a.dfy`, `Printers.dfy`, `Decimal.dfy`: the fixed-point integer printers of `src/ecb.h`. One theorem over word
  width, point position and number of digits, instantiated for all eighteen generated functions, then the four composite
  printers of both builds as they run on a buffer.
* `Half.dfy`: the binary16 and binary32 conversions of `src/ecb.h` against the formats (section 3.4) and the
  roundTiesToEven rounding (section 4.3.1) of IEEE 754-2008, in exact integer arithmetic.
* `Bits.dfy`, `BitCount.dfy`, `Division.dfy`, `Powers.dfy`: bit scans, the parallel bit count, the rounding divisions,
  and the facts about powers, shifts and masks everything above uses. `Wrappers.dfy` holds the types several modules share.
* `SimpleVec.dfy`: the container of `src/estl.h` for element types that are not trivially copyable. A slot is dead until
  an element is constructed in it; no operation constructs in a live slot, or reads, assigns or destroys a dead one.

## How the parts fit together

The protocol model treats the execution of one command as the step of an atomic registry and proves that the helper
executes commands one at a time, in the order the token was acquired. The helper model starts from exactly that: a
sequence of commands. Both describe the registry by the same function, `Registry.Replay`, of the history of commands,
with the null pointer 0 and addresses that may be reused after an object is deleted. Objects carry a serial number that
exists for the statements only. What one command does to the helper is the predicate `CommandEffect` of `Snapshots.dfy`
(`DeleteEffect` for the sweep); `Helper.Handle` and `Helper.Delete` ensure it, and `Composition.dfy` attaches it to the
steps of the protocol.

The session statements are about the trace of log_session calls. `Ledgers.BookAll` computes from the commands and their
answers which calls there have to be, `ApplyAll` and `Appended` say what a trace does to utmp and to wtmp, and `Serve`
shows that the trace is the one the commands ask for and that the files are what it amounts to. Every call of log_session
comes with the answers of open, fcntl, fstat and write (`Session.Wtmp`); the record goes to wtmp exactly if they make
`Session.Takes` true.

## Where the code does not do what it is meant to do

Kept as they are, each with an instance or an exact condition.

* `src/ecb.h:1055`: on 32-bit builds `ecb_i2a_u32` drops the pointer `ecb_i2a_x5` returns. The bytes are right, the
  returned end is right if and only if u > 59074 (`Printers.U32Narrow`); `ecb_i2a_i32` inherits it (`Printers.I32Narrow`).
* `src/ecb.h:903-907`: when rounding overflows the mantissa, the shift moves a bit into the mantissa field that should
  have gone to the exponent. `ecb_binary32_to_binary16` rounds correctly if and only if this branch is not taken
  (`Half.Carries` is its guard); when it is, the result is 0x200 above the right one (`Half.Narrow`,
  `Half.NarrowNormal`). `Half.CarryInstance`: 0x3fffffff becomes 0x4200 instead of 0x4000.
* `src/estl.h:196-199`: the result is a 32-bit number, so `good_size` is the power of two above its argument up to
  max_size and zero beyond it (`SimpleVec.GoodSize`). Every operation asks for at most max_size elements.
* `src/ptytty.C:326-349`: `get` does not look at what the object holds. The old master is always overwritten without
  being closed. The multiplexer and the scan never set the slave descriptor, so an old one is kept and paired with the
  new master; openpty overwrites it. `Ptytty.PtyttyUnix.Get` states exactly when a successful get leaves a slave that
  belongs to its master, and exactly when a get loses no descriptor; `Ptytty.SecondGet` is an instance. The helper only
  ever calls `get` on a new object, where nothing of this happens.
* `src/logging.C:45-53`: the id keeps only the tail of the device name, so two ptys can share a utmp entry, exactly if
  `Session.FillIdCollides` says so; `Session.CollisionInstance` is an instance. `Session.SurvivesExactly` says exactly
  which later calls leave an entry standing.
* `src/proxy.C:199-204`: destroy goes by the address alone. After a fork has copied a proxy, both copies send one, and if
  the address was used again in between, the second deletes the object of somebody else, under a proxy that no fork ever
  copied (`Ownership.ReuseInstance`). What a proxy holds is there if and only if no later command destroyed its address
  (`Ownership.GrantedIsLiveExactly`, `Ownership.HolderIsLiveExactly`); an id that no fork has copied is always safe
  (`Protocol.OwnedIsRegistered`).
* `src/proxy.C:95-102`: a second `get` of a proxy overwrites the id it had, with a new one or, if it fails, with null. The
  proxy can then no longer destroy its first object, which stays registered until another command destroys its address
  (`Ownership.GrantedIsLiveExactly`) or the helper exits (`Completion.Exits`); if the second `get` fails, it still holds
  both descriptors of the first (`Completion.FailedRound`, `Proxies.FailedGetKeeps`).
* `src/ptytty.C:297-304`, `344-347`: a second `get` whose slave does not open frees the device name and keeps the pid of an
  earlier login, and the destructor then passes a null name on to `src/logging.C:303`. `Ptytty.PtyttyUnix.Get` says exactly
  when a get leaves the object so, `Ptytty.PtyttyUnix.Destroy` that exactly then it goes wrong, and
  `Ptytty.NamelessInstance` is an instance. The helper never calls `get` twice on one object.

One constant is larger than it has to be: `ECB_I2A_U64_DIGITS` is 21, and 20 are enough (`Printers.DigitLimits`).

## Model

| member | source | states |
|---|---|---|
| Protocol.Reachable | src/proxy.C:76-216 | every state of every run, whatever the interleaving and the number of proxies, satisfies the invariant: one token, sockets in step with the helper, registry equal to the replayed history, every object live or deleted once |
| Protocol.KeepStep | src/proxy.C:76-216 | each of the sixteen kinds of step, of any proxy or of the helper, keeps that invariant |
| Protocol.MutualExclusion | src/proxy.C:76-150 | two proxies between NEED_TOKEN and GIVE_TOKEN are the same proxy, and then no token is in either channel or with the helper |
| Protocol.AtomicOrder | src/proxy.C:84-211 | the helper executes requests in the order the token was acquired for them, at most one behind, and the registry is what an atomic registry is after the executed ones, without duplicates |
| Protocol.HistoryGrows | src/proxy.C:84-211 | along a run the order of acquisitions and of executed commands is only ever extended |
| Protocol.CleanHandover | src/proxy.C:84-211 | a proxy that holds the token and has not written finds both directions of the command socket empty and every earlier request, unacknowledged logins and destroys included, executed in full |
| Protocol.RepliesPaired | src/proxy.C:87-110 | a proxy that has an id, is not in the middle of get and has not begun its destructor holds both descriptors that one executed get made under that id, and unless a fork has copied a proxy with this very id that get was its own; no proxy ever reads a message of the wrong kind |
| Protocol.GetReturns | src/proxy.C:84-110 | with forks or without: when get is about to return, the last executed command is this very proxy's get; it failed if the null address was read, and otherwise it made exactly the id and the two descriptors the proxy holds; what a failed get leaves is Proxies.FailedGetKeeps |
| Proxies.OnlyWhatWasMade | src/proxy.C:84-150 | every proxy in every state, whatever its id and wherever it is in get: a master it holds is that of an object some executed get made, a slave likewise, and in its destructor it holds neither |
| Proxies.FailedGetKeeps | src/proxy.C:84-102 | a get that reads the null address returns with both descriptors as they were when it began and the id null, and the helper has just executed this very get, and failed |
| Proxies.NothingFromFailedGets | src/proxy.C:84-102 | a proxy that starts with nothing and whose gets have all failed holds nothing, whatever the others do |
| Proxies.HoldsItsOwn | src/proxy.C:84-150 | over any stretch of a run in which a proxy stays: what it holds at the end it held at the start, or one of its own gets executed since has made it |
| Proxies.KeepsMeanwhile | src/proxy.C:84-150 | outside get and the destructor a proxy keeps its id and both descriptors |
| Protocol.OwnedIsRegistered | src/proxy.C:84-150 | an id that no fork has copied, of a proxy that has not sent its destroy, names a live object, is in the registry at every loop head and belongs to no other proxy, whatever forks do to other ids |
| Ownership.GrantedIsLiveExactly | src/proxy.C:165-206 | in every run, forks and reused addresses included: what an executed get made is live, and registered, at a loop head if and only if no later command is a destroy of its address |
| Ownership.HolderIsLiveExactly | src/proxy.C:113-206 | the same for what any proxy holds, whoever it was copied from: its object is there exactly if nobody has destroyed its address since the get that made it |
| Ownership.ReuseInstance | src/proxy.C:132-206 | a run in which a copy's stale destroy deletes the pty of a proxy that no fork ever copied, because the address was used again |
| Ownership.RegistryInOrder | src/proxy.C:152-216 | in every state of every run the registry is in the order in which its objects were made |
| Ownership.KeepHolds | src/proxy.C:152-216 | every step keeps the live objects equal to what the executed commands leave behind the addresses, and serials increasing |
| Registry.HeldExactly | src/proxy.C:165-206 | over any history that gives out only free addresses: the object a get made is still behind its address if and only if no later command destroyed that address |
| Protocol.DeletedExactlyOnce | src/proxy.C:165-215 | no object is ever deleted twice, and once the helper has exited exactly the objects ever created have been deleted |
| Completion.Exits | src/proxy.C:158-215 | every run that comes to a waiting helper with an empty socket and nobody in a critical section goes on to the exit, whatever is registered: nothing more is executed, nothing is left live, and the deleted serials grow by those of the registry from the last entry to the first, which is from the youngest object to the oldest |
| Completion.ExitStaysPossible | src/proxy.C:158-215 | from every serving state of every run the exit can be reached with every request that got the token executed and nothing left live |
| Completion.AbandonedInstance | src/proxy.C:158-215 | a client that goes away without its destructor: its object stays registered and is deleted when the helper exits |
| Protocol.ServiceCompletes | src/proxy.C:84-211 | in every reachable serving state at most fourteen steps of helper and token holder are left until the token is on offer, and while any is left one is enabled and brings the count down |
| Protocol.RankStep | src/proxy.C:84-211 | the ranking function: service steps lower it, steps of the other proxies never raise it, whatever the interleaving |
| Protocol.NeverStuck | src/proxy.C:84-211 | with no failing calls, some step of helper or token holder is possible in every reachable state in which the token is not on offer |
| Completion.RequestCompletes | src/proxy.C:84-211 | a request that waits for the token can be served in every serving state of every run, whatever the others have left in the sockets: it becomes the last executed command, and its proxy is idle again, or gone after its destructor |
| Completion.OperationCompletes | src/proxy.C:84-211 | so can every get, login and destructor of an idle proxy, from its beginning |
| Completion.FailedRound | src/proxy.C:84-186 | a get for which the system has no pty: the object is deleted again, null is written and read, and the proxy has lost its id and nothing else |
| Protocol.KeepProxies | src/proxy.C:84-150 | every step keeps, for every proxy, both descriptors and the id tied to one executed get, its own unless a fork has copied a proxy with this id |
| Protocol.KeepOwnership | src/proxy.C:84-150 | every step keeps the ids that no fork has copied live, distinct and not in transit, although addresses are reused and other ids may be shared |
| Composition.Reachable | src/proxy.C:84-216 | protocol and helper together: in every state of every run the helper is consistent, its objects are the registered ones, its ledger is the one the executed commands ask for, and every answer has the form of its command and hands over the helper's own files |
| Composition.KeepStep | src/proxy.C:84-216 | every protocol step, with what it does to descriptors and sessions, keeps that |
| Composition.DescriptorsConserved | src/proxy.C:165-206 | over every interleaving: between two commands the open descriptors are the sockets and one master per object, and at every loop head the objects are those of the registry |
| Composition.SessionsBalanced | src/proxy.C:187-215 | over every interleaving, and whichever writes to wtmp succeed: the calls of log_session are exactly those that the executed commands and the sweep ask for, the session files are what they amount to, live objects are tracked and deleted ones balanced, and once the helper has exited only the sockets are open, every object is deleted, and with wtmp enabled and every write succeeding wtmp has exactly one DEAD record per object whose last login was a login shell with a pid |
| Composition.HoldsOwnFiles | src/proxy.C:84-186 | over every interleaving, forks included: the two descriptors a proxy holds stand for a master and the slave that belongs to it; while the helper has the object, they are the master it keeps and the slave it names, and at a loop head it has it exactly if no later command destroyed its address |
| Composition.OneFileBehind | src/proxy.C:165-186 | an end of a pty stands for one file in a run: no two gets hand over different files for the same object |
| Composition.EffectPossible | src/proxy.C:165-206 | the helper's effects never stand in the way of a step of the protocol, whatever the writes to wtmp do |
| Composition.Projects | src/proxy.C:84-216 | the protocol part of a combined run is a run of the protocol |
| Composition.Lifts | src/proxy.C:84-216 | every way in which a protocol run can go on is a way in which the combined run can go on |
| Composition.Exits | src/proxy.C:158-216 | every combined run that comes to a state in which the clients can go away goes on to the exit with whatever is registered: the same commands and answers, the objects deleted from the youngest to the oldest, only the sockets open, the ledger closed in that order, every trace balanced and the DEAD records of wtmp counted |
| Registry.RemoveKeeps | src/proxy.C:199-206 | erasing keeps the registry duplicate-free and takes out the named id and nothing else; an unknown id changes nothing |
| Registry.RemoveSplits | src/estl.h:389-411 | erasing closes the gap: what was before and behind the entry stays in its order |
| Registry.ReplayInOrder | src/proxy.C:165-206 | any history that gives out increasing serials and free addresses leaves the objects held, and no others, in the registry, the oldest first |
| Registry.FromLastFalls | src/proxy.C:213-215 | so the sweep from the last entry to the first deletes in strictly decreasing order of creation |
| Registry.IndexOf | src/estl.h:15-22 | the position find returns: the first occurrence, or the end exactly if the id is not there |
| Helper.Helper.Serve | src/proxy.C:152-216 | over any sequence of commands and all answers of the system: every command answered in order with the right messages, a get successfully exactly if the system has a pty, the registry equal to the replayed history; on exit only the sockets open and every object deleted once, those still registered last and from the youngest to the oldest; the trace of log_session calls exactly the one that logins of registered, named objects, destroys and the sweep ask for, each record in wtmp exactly if it is a login shell's and the system takes it; every object balanced, utmp and wtmp what the trace amounts to, and, with every write taken, one DEAD record per object whose last login was a login shell with a pid |
| Helper.Helper.Handle | src/proxy.C:158-211 | one round: one more event with its answer, the effect that CommandEffect gives the command, the same the composition attaches to the protocol step, the ledger booked with it, and at most one more entry at the end of the trace |
| Ledgers.LoginsOnlyByLogin | src/proxy.C:187-196 | the only command that adds a login is a login command naming a registered id with a device name, and it adds exactly itself, with its pid, shell flag and cut host |
| Ledgers.SweepAddsNoLogin | src/proxy.C:213-215 | the sweep adds no login |
| Ledgers.LoginsWritten | src/logging.C:295-334 | the login entries of a trace are what the login calls write, one for one and in order |
| Ledgers.DevicesNamed | src/logging.C:295-334 | every entry of a trace names the device of its call |
| Snapshots.LoginHost | src/proxy.C:187-196 | the host of a login record is the name cut to 511 characters and to the field |
| Helper.Helper.HandleGet | src/proxy.C:165-186 | get succeeds exactly if the system has a pty whose slave opens; then it registers one new object, answers with its address, its master and the slave belonging to it, and keeps only the master open; a failed get deletes its object, answers null and leaves descriptors, registry and sessions as they were |
| Helper.Helper.HandleLogin | src/proxy.C:187-196 | login writes exactly one entry, with the host name cut to 511 characters, if its address is registered and the object has a device name; otherwise nothing changes |
| Helper.Helper.HandleDestroy | src/proxy.C:197-206 | destroy deletes and erases a registered object, closes its master and, if its last login had a pid, writes exactly the logout of it, the other entries staying in order of creation; any other address changes nothing |
| Helper.Helper.Delete | src/ptytty.C:297-304 | deleting an object closes its master and nothing else, and extends the trace by exactly the logout of its last login, or by nothing if that had no pid |
| Helper.Helper.Sweep | src/proxy.C:213-215 | the reverse sweep leaves no object, deletes those left from the last registered to the first and books their closings in that order |
| Descriptors.DescriptorsClosed | src/proxy.C:197-206 | descriptor conservation: taking one object and its master away leaves the sockets and exactly one master per remaining object |
| Snapshots.GetKeeps | src/proxy.C:165-186 | one new object with one new master keeps descriptors, sessions and session files consistent |
| Snapshots.LoginKeeps | src/proxy.C:187-196 | so does a login |
| Snapshots.DeleteKeeps | src/proxy.C:197-206 | so does a deletion, with or without a logout |
| Accounts.BalancedAtEnd | src/ptytty.C:297-304 | an object's entries end balanced: a last login with a pid is followed by exactly one logout with its own line, id and pid, any other by none |
| Accounts.OneDeadRecord | src/logging.C:320-325 | what a deleted object leaves in wtmp: one DEAD record if its last login had a pid, was a login shell and its logout was appended, none otherwise |
| Accounts.DeadInAll | src/logging.C:320-325 | with all entries of all objects balanced, wtmp gained as many DEAD records as there are objects whose last login was a login shell with a pid and whose logout was appended |
| Ledgers.DeadWhenTaken | src/logging.C:213-325 | with wtmp enabled and every write succeeding, wtmp gains exactly one DEAD record for each object whose last login was a login shell with a pid, and no other |
| Ledgers.NothingWhenRefused | src/logging.C:213-325 | with wtmp disabled, or no write succeeding, it gains nothing |
| Snapshots.AtEnd | src/proxy.C:213-216 | with no object left, the open descriptors are the sockets the helper started with, every object ever made was deleted once, every trace is balanced and wtmp has the DEAD records that calls for |
| Snapshots.CommandKeeps | src/proxy.C:165-206 | every command, with what it may do to the helper, keeps descriptors, sessions, session files and ledger consistent |
| Snapshots.CommandBooks | src/proxy.C:165-206 | every command changes the ledger exactly as the command and its answer ask for, whether the helper has something to do or not |
| Ptytty.PtyttyUnix.Get | src/ptytty.C:326-407 | for every object and all answers of the system: succeeds exactly if the system has a pty whose slave opens; what is held afterwards and what is open, on success and on failure; the slave belongs to the master exactly if it was opened for it or the old one happens to have its name; no descriptor is lost exactly if there was no old master, and no old slave that openpty overwrote; and a login is left without a name exactly if the slave of a new pty did not open, or it was so before and there was no new pty |
| Ptytty.SecondGet | src/ptytty.C:326-349 | a second get with the multiplexer: the first master stays open with nobody, and the object holds the new master with the old slave |
| Ptytty.PtyttyUnix.Put | src/ptytty.C:306-324 | put closes what the object holds, each descriptor once, and a second put changes nothing |
| Ptytty.PtyttyUnix.CloseTty | src/ptytty.C:221-229 | closes the slave once |
| Ptytty.PtyttyUnix.Login | src/ptytty.C:409-421 | without a device name nothing happens; otherwise the pid and the shell flag are remembered and one login is logged |
| Ptytty.PtyttyUnix.Destroy | src/ptytty.C:297-304 | for every object: reads through the null name exactly if a login is remembered without one; otherwise logs out exactly if a login with nonzero pid is remembered, then closes everything held |
| Ptytty.NamelessInstance | src/ptytty.C:297-349 | get, login, close_tty and a second get whose slave does not open: the destructor reads through the null name |
| Ptytty.GetPtyScan | src/ptytty.C:146-179 | the scan returns the first of the 256 candidates that works, or, if none does, leaves nothing open |
| Ptytty.TryCandidate | src/ptytty.C:156-176 | one round: the candidate is open exactly if it works, otherwise everything opened is closed again |
| Ptytty.GetPty | src/ptytty.C:71-179 | for all three ways of finding a pty: succeeds exactly if the multiplexer opens and grants and unlocks, openpty works, or one of the 256 candidates works; then a master paired with the name of its slave, the slave descriptor set only by openpty; otherwise nothing opened and nothing set |
| Ptytty.CandidateExactly | src/ptytty.C:156-176 | what makes a candidate, under the first name of a round or, exactly if that does not open, under the second |
| Ptytty.SuffixesDiffer | src/ptytty.C:151-159 | the 256 first names are all different, from p0 to ef, the minor letter changing first |
| Ptytty.DecimalDenotes | src/ptytty.C:163-164 | the second name ends in the number of the round, digits without leading zeros |
| Ptytty.PairedOnce | src/ptytty.C:158-170 | a master belongs to one slave name only |
| Session.Db.LogSession | src/logging.C:295-334 | the record names the device by what follows /dev/, or by its whole name, as much of it as fits the line and its tail as id; a login replaces the utmp entry of its id, a logout only if the entry still carries this pid; wtmp grows by this record exactly if it is a login shell, wtmp is enabled and the system takes the record |
| Session.FillNamesDevice | src/logging.C:269-306 | a device name that begins with /dev/ is logged without these five characters, any other whole |
| Session.ApplyOwnOnly | src/logging.C:308-314 | a record changes the entry of its own id and no other: a login replaces it, a logout only if it carries its pid |
| Session.ApplyAllOwnOnly | src/logging.C:308-314 | an id that no record of a trace has keeps the entry it had |
| Session.TenAttempts | src/logging.C:228-236 | the lock is had if it comes at the tenth attempt at the latest, never after ten in vain or after a hopeless error |
| Session.Db.UpdWtmp | src/logging.C:213-249 | for all answers of the system: the whole record is appended if and only if the file opens, the lock is had within ten attempts without a hopeless error before, fstat succeeds and the write is complete; otherwise the file is as it was |
| Session.Fill | src/logging.C:269-293 | a record holds as much of the line, of the user and of the host as fits its fields, the tail of the line as id, the pid and the kind of the event; a logout names no host, and no user in the utmp form |
| Session.FillId | src/logging.C:45-53 | the id is the tail of the line that fits the field |
| Session.FillIdCollides | src/logging.C:45-53 | two lines share an id exactly if they are equal or both fill the field and end alike |
| Session.CollisionInstance | src/logging.C:45-53 | pts/12345 and pts/22345 with a field of four: the second login takes the entry of the first, whose logout then changes nothing |
| Session.LoginSurvives | src/logging.C:310-314 | a login entry stays in utmp through any logouts of other sessions, even ones sharing its id, until a login takes the id over |
| Session.SurvivesExactly | src/logging.C:310-314 | an entry stands after each of the following calls exactly if every one of them with its id repeats it or logs out another pid |
| Session.LogoutCloses | src/logging.C:310-314 | logging a session out leaves its own DEAD record in its place, unless a login took the id over |
| FdPass.RecvFd | src/fdpass.C:81-145 | whatever length the control message claims: the first descriptor is kept and every other one within claim and buffer closed once, or with a nonzero data byte all are closed and -1 returned; no read leaves the buffer |
| FdPass.CoveredExactly | src/fdpass.C:112-126 | the descriptors dealt with are exactly those that end within the claimed length and within the buffer |
| FdPass.Receive | src/fdpass.C:81-145 | whatever was attached to the message, and though the system claims a length beyond the buffer, the receiver ends up with exactly one new descriptor, for the first file, or with its table as it was |
| FdPass.Pass | src/fdpass.C:44-145 | send_fd then recv_fd delivers the sender's open file under a new descriptor |
| FdPass.SendFd | src/fdpass.C:44-79 | succeeds exactly for an open descriptor, memory and socket permitting, with data byte zero and that one file |
| I2a.PrinterOutput | src/ecb.h:970-1000 | the generic theorem: for every word width, point position, digit count and input without overflow, the printer prints the digits of u + floor(u * excess / 2^bits) |
| I2a.PeelDigits | src/ecb.h:970-978 | taking the digit above the point, masking, multiplying by five and moving the point down yields the decimal digits |
| I2a.PrintedExact | src/ecb.h:982-1000 | the printed number is u exactly if u times the excess of the rounded-up scale factor is below one unit |
| I2a.EmitNumeral | src/ecb.h:974-976 | overwriting leading zeros leaves the canonical numeral |
| I2a.FullRangeExact | src/ecb.h:1013-1031 | each of the sixteen printers 2..9 and 02..09 prints its argument exactly if it has at most that many digits |
| I2a.X5Exact | src/ecb.h:1008-1010 | among all 32-bit inputs x5 prints exactly those up to 59074, so the limit is the greatest |
| I2a.X10Exact | src/ecb.h:1009-1011 | among all 32-bit inputs x10 prints exactly those up to 2932500665, so the limit is the greatest |
| I2a.ScaleConstants | src/ecb.h:987-1031 | the scale factor and the excess of every instance |
| Printers.Print | src/ecb.h:982-1000 | a generated printer run on a buffer: it writes its output at the pointer, returns the end and leaves every other byte as it was, the overwritten zeros notwithstanding |
| Printers.U64Native | src/ecb.h:1095-1134 | the canonical numeral of every 64-bit number across the three branches, nothing else touched |
| Printers.U64Narrow | src/ecb.h:1095-1134 | the recursive 32-bit version terminates and has the same bytes and the same end as the 64-bit version |
| Printers.I64Native | src/ecb.h:1136-1170 | every signed 64-bit number, -2^63 included, with '-' only for negative ones |
| Printers.I64Narrow | src/ecb.h:1136-1170 | the same on a 32-bit build |
| Printers.U32Native | src/ecb.h:1039-1078 | the canonical numeral of every 32-bit number |
| Printers.I32Native | src/ecb.h:1080-1093 | the same for signed 32-bit numbers |
| Printers.U32Narrow | src/ecb.h:1053-1078 | the 32-bit build writes the right bytes for every input, but the returned end is right exactly if u > 59074: the first branch drops the pointer |
| Printers.I32Narrow | src/ecb.h:1080-1093 | inherits that: the end is right exactly if the magnitude is above 59074 |
| Printers.ReadBack | src/ecb.h:1039-1170 | parsing what was written gives the number back, and the text is canonical |
| Printers.SpeculativeMinus | src/ecb.h:1083-1084 | writing '-' first and advancing only for negatives gives the same buffer as writing the signed numeral |
| Printers.DigitLimits | src/ecb.h:1033-1037 | the digit constants are enough for every value |
| Decimal.CanonicalUnique | src/ecb.h:1002-1005 | the reference: a canonical digit string is the numeral of the number it denotes |
| Decimal.SignedRoundTrip | src/ecb.h:1080-1170 | parsing the signed numeral of any integer gives it back |
| Decimal.SignedIsAscii | src/ecb.h:974-1084 | the bytes are ASCII: digits from '0' to '9', after a '-' exactly for negative numbers |
| Half.Narrow | src/ecb.h:886-948 | for every 32-bit input: sign kept; roundTiesToEven of IEEE 754-2008 section 4.3.1 exactly if the carry branch is not taken, subnormal results, underflow, promotion to the least normal and overflow included; NaNs stay NaNs with their leftmost bits; on the carry branch exactly 0x200 too large |
| Half.RoundShift | src/ecb.h:931-939 | (m + half + even) >> bits is m / 2^bits rounded to nearest, ties to even |
| Half.NormalRounds | src/ecb.h:896-910 | the fast path's addition rounds to nearest even over the whole normal range |
| Half.SubnormalRounds | src/ecb.h:929-941 | the subnormal path rounds to the nearest multiple of 2^-24 |
| Half.TinyRounds | src/ecb.h:919-927 | the underflow cutoff: everything below it rounds to zero |
| Half.LargeRounds | src/ecb.h:912-914 | from 2^16 on everything rounds to infinity |
| Half.NarrowNormal | src/ecb.h:896-910 | before the carry the fast path is right; on the carry the right answer is the next binade and the code's is not |
| Half.CarryInstance | src/ecb.h:897-910 | 0x3fffffff takes the carry branch, its nearest half is 0x4000, and it becomes 0x4200 |
| Half.Landmarks | src/ecb.h:854-948 | the formats at known points: one, the least half and the greatest finite half |
| Half.Widen | src/ecb.h:854-884 | every finite half widens to the same number, subnormals renormalised, infinities and NaN payloads kept |
| Half.WidenNarrow | src/ecb.h:854-948 | narrowing after widening is the identity on all 65536 encodings |
| Half.RoundsUnique | src/ecb.h:886-948 | a number has at most one roundTiesToEven result, so the above fixes the output |
| Bits.Ld32 | src/ecb.h:524-542 | the position of the highest set bit, for every nonzero word |
| Bits.HighestBitUnique | src/ecb.h:524-558 | there is only one highest set bit, so the contracts of the scans fix their results |
| BitCount.Popcount32 | src/ecb.h:512-522 | the SWAR sum with its final multiplication is the number of one bits, for every 32-bit word |
| BitCount.Popcount64 | src/ecb.h:596-603 | the same for 64-bit words |
| BitCount.RoundKeepsTotal | src/ecb.h:516-518 | one mask-and-add round keeps the total of the fields, for every field width |
| BitCount.MaskAfterAdding | src/ecb.h:518-518 | where the sums cannot carry, masking once after the addition does what masking twice before it does |
| BitCount.SumOfBytes | src/ecb.h:519-521 | the top byte of the product is the sum of the bytes |
| BitCount.Ctz32 | src/ecb.h:467-496 | the position of the lowest set bit, by isolating it and asking five masks |
| BitCount.Ctz64 | src/ecb.h:498-510 | the same for 64-bit words |
| BitCount.Ld64 | src/ecb.h:544-558 | the highest set bit of a 64-bit word |
| BitCount.Isolate | src/ecb.h:478-478 | x & (~x + 1) is the power of two of the lowest set bit |
| Division.FloorAndMod | src/ecb.h:814-834 | ecb_div_rd is the floor, both definitions of ecb_mod agree with its remainder, and val = div * ecb_div_rd + ecb_mod |
| Division.Ceiling | src/ecb.h:827-834 | ecb_div_ru is the ceiling and mirrors ecb_div_rd |
| SimpleVec.PowerAboveLeast | src/estl.h:196-199 | the value good_size returns for 0 < n <= max_size: the least power of two above n, at most 2n, representable |
| SimpleVec.GoodSize | src/estl.h:196-199 | good_size for every 32-bit request: five for zero, that power of two up to max_size, and zero beyond it |
| SimpleVec.PushCost | src/estl.h:246-259 | potential argument: after n push_backs the capacity is at most 2n and all reallocations together copied the capacity less two |
| SimpleVec.PushAll | src/estl.h:321-325 | n push_backs from empty hold the n elements, copied at most 2n elements and leave a capacity of at most 2n |
| SimpleVec.SimpleVec.Ins | src/estl.h:201-225 | room of n slots at pos, the elements before and after it kept, every slot below the new size live and every other dead; if the allocation is replaced, no element is left alive in the old one |
| SimpleVec.ShiftUp | src/estl.h:217-222 | the backward overlapping shift, element by element, moves the old values and touches only live slots |
| SimpleVec.ShiftDown | src/estl.h:391-397 | the forward overlapping copy of erase, likewise |
| SimpleVec.SimpleVec.Reserve | src/estl.h:246-259 | same elements, enough capacity, growth to the power of two above the request only when needed; if the allocation is replaced, no element is left alive in the old one |
| SimpleVec.SimpleVec.Resize | src/estl.h:261-272 | a prefix of the elements, or the elements and default values; reallocation only without room, to the power of two above; if the allocation is replaced, no element is left alive in the old one |
| SimpleVec.SimpleVec.PushBack | src/estl.h:321-325 | appends one element, capacity and copy count following the growth policy; if the allocation is replaced, no element is left alive in the old one |
| SimpleVec.SimpleVec.PopBack | src/estl.h:327-330 | drops the last element |
| SimpleVec.SimpleVec.Clear | src/estl.h:315-319 | no element, same allocation |
| SimpleVec.SimpleVec.Insert | src/estl.h:356-364 | one element inserted at the position; reallocation only without room, to the power of two above; if the allocation is replaced, no element is left alive in the old one |
| SimpleVec.SimpleVec.InsertRange | src/estl.h:366-375 | a range inserted at the position; reallocation only without room, to the power of two above; if the allocation is replaced, no element is left alive in the old one |
| SimpleVec.SimpleVec.InsertFill | src/estl.h:377-387 | n copies inserted at the position; reallocation only without room, to the power of two above; if the allocation is replaced, no element is left alive in the old one |
| SimpleVec.SimpleVec.EraseRange | src/estl.h:389-403 | the range taken out, the rest kept in order, the freed slots destroyed |
| SimpleVec.SimpleVec.Erase | src/estl.h:405-411 | one element taken out; erasing at the end does nothing |
| SimpleVec.SimpleVec.AssignRange | src/estl.h:338-354 | the new elements exactly, every slot of the old allocation destroyed |
| SimpleVec.SimpleVec.AssignFill | src/estl.h:344-348 | likewise for n copies |
| SimpleVec.SimpleVec.FromRange | src/estl.h:288-301 | a copy holds exactly the elements of the range, no slot more |
| SimpleVec.SimpleVec.Fill | src/estl.h:279-286 | n copies, filled from the last slot down, each slot constructed once |
| SimpleVec.SimpleVec.Dealloc | src/estl.h:190-194 | no element survives in an allocation that is given back |
| SimpleVec.SimpleVec.Swap | src/estl.h:308-313 | contents and allocations change places |
| SimpleVec.SimpleVec.Find | src/estl.h:15-22 | the first occurrence, or the end |
| SimpleVec.LessThan | src/estl.h:422-433 | the loop decides the lexicographic order, by the first position that differs or, without one, by the length |
| SimpleVec.LexFirst | src/estl.h:422-433 | the order is decided at the first position where the elements differ, and for the shorter if there is none |
| SimpleVec.PrefixLess | src/estl.h:432-432 | a proper prefix is less, and not the other way round |
| SimpleVec.LexStrictTotal | src/estl.h:422-433 | over a strict total order of elements, vectors are strictly and totally ordered |

## Left out

- Exec, signals, closing inherited descriptors, short or interrupted reads and clients that crash while they use the
  sockets: the sockets are reliable and messages are whole; a process can go away whenever its proxies are idle. The
  exception thrown by `get`, which keeps the token, is a state the protocol model has and proves unreachable under that
  assumption.
- A client that closes a descriptor it was given before its destructor does: a proxy of the protocol model keeps both.
- Bytes on the token socket: they are all alike, so each direction is a count. A fork copies a proxy only while it is
  idle.
- Protocol.OwnedIsRegistered: speaks of ids that no fork has copied; for the others it can fail, and
  `Ownership.GrantedIsLiveExactly` says exactly when such an id still names its object.
- Ptytty.PtyttyUnix.Destroy: says nothing about the state after reading through a null name.
- Build variants: `UTMP_SUPPORT` is on, `_getpty` is not modelled, nor are systems without `ut_pid`, which write utmp by
  slot number; the system's own `updwtmpx` is taken to append or leave the file alone like the code's.
- A failing `pututline`, or an `ftruncate` that fails after a bad write to wtmp.
- lastlog, record times, the peculiarities of `getutid` beyond a table keyed by id, and pids beyond equality.
- Terminal ioctls, STREAMS modules, utf-8 mode, controlling terminals, chmod, chown and revoke: calls whose results the
  code ignores or does not keep.
- `drop_privileges`, `init`, `sanitise_stdfd`, `use_helper`, `src/c-api.C` and the sample program.
- Printers.U32Narrow: states the end pointer the code returns, which is not the end of the text for u <= 59074.
- Division.FloorAndMod: over integers; the sum inside the rounding divisions can overflow a word near its limits.
- BitCount.Ctz32, Bits.Ld32: nonzero arguments, like the compiler builtins they replace.
- In `src/ecb.h`: the compiler builtins themselves, fences, power-of-two tests, rotations, bit reversal, byte swapping,
  peeks and pokes, and the frexp/ldexp emulation.
- In `src/estl.h`: the memmove and memcpy path for trivially copyable elements (the element-wise path has the same effect
  on the elements), arguments that refer into the same vector, the byte-wise `operator ==`, the scoped pointers, element
  access by index, and sizes beyond 2^31 - 1.
- SimpleVec.SimpleVec.Ins: the values in the opened room are unspecified, as in the source; every caller assigns them.
- FdPass.RecvFd: descriptors a system drops because the buffer is full are the system's to close.
