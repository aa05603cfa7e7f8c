# Proofs about the load-testing system

This project models the hard parts of a distributed load tester and of the libraries it ships
with, and proves what they are meant to guarantee. Each module is one component:

* **Lua compiler and runtime.** `LuaGenerator` is the code generator for short-circuit
  expressions as functions; `LuaMachine` is the virtual machine; `LuaShape`, `LuaRuns`,
  `LuaCorrectness`, `LuaExpressions` and `LuaTheorem` build up to compiler correctness, and
  `LuaLimits` says when no limit of the instructions is met.
  `LuaBuilder` is the generator as it works in the source, on code in place, with the pending
  jumps threaded through the jumps' own offsets; each of its methods is proved equal to the
  function of `LuaGenerator`. `LuaInstructions` has the 32-bit fields and `LuaWords` relates them
  to the instructions; `LuaParser` is the expression parser and `LuaFrontEnd` the parser as it
  drives the generator. `LuaUpvalues` is open and closed upvalues, `LuaTables` tables with array and
  hash part, `LuaStrings` the `%q` format and the string scanner.
* **gRPC transport.** `GrpcSendFlow` and `GrpcReceiveFlow` are flow control on both sides as
  state machines, `GrpcMessages` the way of messages through frames and queues, `GrpcConn` the
  life of a connection.
* **Protobuf** wire format (`Protobuf`), the **mock clock** (`MockClock`), the **Skip32** cipher
  (`Skip32`).
* **The system's own protocol.** `SchedulerDroplets` is how executors join, `LoadRates` how load
  is split and grows.

Code that works in place is modelled by classes and loops proved against specification
functions; concurrent code by state machines whose steps are the sections under one mutex and
the channel operations between them, with theorems over all runs.

## Where the code does not do what one would expect

* The stack check only stops at 1000000 registers, while an instruction names 256. Where a
  register is put into an instruction that is there already, nothing checks it: above 255 the low
  8 bits are written (`LuaTheorem.WideRegisterLimit`), and a widened LOADNIL starts over after 512
  registers (`LuaTheorem.NilLimit`). Register 255 is taken for `no register`, so that an exit of
  `and` or `or` that should bring a tested value there loses it (`LuaTheorem.LastRegisterLimit`).
  Fields with bit 8 set are constants, so that such a register is neither freed nor compared. And
  constants with an index above 262143 are loaded by LOADK 0 and an EXTRAARG
  (`LuaTheorem.ConstantLimit`). The generator's model records when one of these happens, and the
  compiler theorem holds for any number of registers and constants unless it does; with 255
  registers and 262144 constants it does not (`LuaLimits.RoomIsEnough`).
* `length()` bisects with `(i + j) / 2`, which wraps around when both are large
  (`LuaTables.LengthMisled`); `LuaTables.Table.Length` says exactly when the result is a border.
* A registration sends on a channel of capacity one with the scheduler's lock held. A droplet
  that registers again while its first port is still in the channel blocks the scheduler, and for
  good if its launcher does not read any more (`SchedulerDroplets.RegisterBlocksIff`); with one
  registration for each droplet that cannot happen (`SchedulerDroplets.OnceNeverBlocks`).
* A call of LaunchExecutors may succeed with an error pending, and then with fewer executors
  than were asked for (`SchedulerDroplets.FullSuccessIff`); a share can then be above what an
  executor may do (`LoadRates.JoinedShares`).
* A large growth factor overflows the conversion to an integer and makes the rate negative, and
  one that is no number, which passes the checks, does the same (`LoadRates.SteadyIff`). A time
  between growths of 0.1 seconds is accepted, but below one second the ticker's period is zero,
  with which it panics (`LoadRates.GrowthPeriodIs`). The tick loop starts counting at one, so it sends one job less than the
  number of iterations.
* Data that comes in for a closed stream is dropped without being charged, so that these bytes of
  the connection's window never come back; with a whole window dropped the connection is stalled
  for good (`GrpcReceiveFlow.DroppedIsLost`, `GrpcReceiveFlow.WindowDropped`).
* In `close`, a node that is taken out of the list still serves as predecessor of the next one,
  so of two neighbours that are closed the second stays in the list
  (`LuaUpvalues.State.CloseUpValues` shows that this is harmless).

## Model

| member | source | states |
|---|---|---|
| `LuaTheorem.ExpressionCorrect` | Godeps/_workspace/src/github.com/Shopify/go-lua/code.go:655-683 | for every expression of locals, constants, and/or/not/comparisons: the code for `local r = e`, run on the machine from its first instruction with any registers, ends just past its end with the short-circuit value (sections 3.4.3 and 3.4.4 of the Lua 5.2 Reference Manual) in the new register and every register below unchanged, or raises the error that the expression raises |
| `LuaTheorem.NextRegisterCorrect` | Godeps/_workspace/src/github.com/Shopify/go-lua/code.go:677-683 | the same in any state of the generator, with any other pending jumps around it and for runs that come in through a jump, for any number of registers and unless a limit of the instructions was met; runs that do not get to the expression are not affected, and registers are handed back (freeRegister's check never fails) |
| `LuaTheorem.LocalCorrect` | Godeps/_workspace/src/github.com/Shopify/go-lua/code.go:734-739 | the same for an assignment to a local: that register is the only one below the free ones that changes |
| `LuaTheorem.ConstantLimit` | Godeps/_workspace/src/github.com/Shopify/go-lua/code.go:342-349 | for every state of the generator and every string: the code for `local r = s` delivers the string exactly if the index of its constant is at most 262143; beyond, LOADK 0 with an EXTRAARG is emitted instead of LOADKX, and the machine stops |
| `LuaTheorem.LastRegisterLimit` | Godeps/_workspace/src/github.com/Shopify/go-lua/code.go:452-461 | for all locals a and b and behind any code: `local r = a and b` compiled for register 255 runs to its end, and delivers the value exactly if a is true or the register holds it already, because 255 is taken for `no register` |
| `LuaTheorem.WideRegisterLimit` | Godeps/_workspace/src/github.com/Shopify/go-lua/code.go:628-629 | for every register r above 255 and behind any code: `local r = not a` is compiled without an error, writes to the register that the low 8 bits of r name instead, and delivers the value exactly if r holds it already |
| `LuaTheorem.NilLimit` | Godeps/_workspace/src/github.com/Shopify/go-lua/code.go:355-367 | widening a LOADNIL past 512 registers is not checked either: its count starts over |
| `LuaTheorem.RegistersReached` | Godeps/_workspace/src/github.com/Shopify/go-lua/code.go:710-732 | waiting operands of comparisons take up any number of registers to 256, by code that meets no limit and no error |
| `LuaTheorem.LastRegisterWitness` | Godeps/_workspace/src/github.com/Shopify/go-lua/code.go:452-461 | in a function of 200 locals, behind 55 waiting operands: a compiled expression, accepted without an error, that loses its value |
| `LuaTheorem.WideRegisterWitness` | Godeps/_workspace/src/github.com/Shopify/go-lua/code.go:628-629 | behind 56 waiting operands: a compiled expression, accepted without an error, that overwrites the first local |
| `LuaLimits.RoomIsEnough` | Godeps/_workspace/src/github.com/Shopify/go-lua/code.go:342-349 | no limit is met with at most 255 registers and 262144 constants, given that the LOADNILs so far clear registers of the function |
| `LuaLimits.CompileLossless` | Godeps/_workspace/src/github.com/Shopify/go-lua/code.go:884-958 | the same for every expression before it is put into a register |
| `LuaFrontEnd.TokensToValue` | Godeps/_workspace/src/github.com/Shopify/go-lua/parser.go:259-280 | tokens to code to value: reading the tokens of a conforming tree, with Prefix, Infix and Postfix called on the way, leaves code that computes what the tree means |
| `LuaFrontEnd.SubExpressionCompiles` | Godeps/_workspace/src/github.com/Shopify/go-lua/parser.go:259-280 | for all tokens: reading and generating at once is generating the code of the tree read, and stops exactly at a syntax error or an operator that is not covered |
| `LuaWords.PatchedWords` | Godeps/_workspace/src/github.com/Shopify/go-lua/code.go:452-481 | patching a list on the 32-bit words: exactly the jumps of the list get an offset, exactly the TESTSETs in front of them their register, and every other word is the same |
| `LuaWords.LinkedWords` | Godeps/_workspace/src/github.com/Shopify/go-lua/code.go:515-528 | concatenating on the words: exactly the last jump of the first list gets a link |
| `LuaWords.OpOf` | Godeps/_workspace/src/github.com/Shopify/go-lua/instructions.go:136-137 | the opcode field tells TESTSETs from all other instructions |
| `LuaExpressions.CompileTracks` | Godeps/_workspace/src/github.com/Shopify/go-lua/code.go:884-958 | compiler correctness by induction over the expression, before it is put into a register: on every run the code delivers the value through the register, the constant, the comparison or the jump lists that the descriptor names |
| `LuaExpressions.GoIfTrueTracks` | Godeps/_workspace/src/github.com/Shopify/go-lua/code.go:787-801 | behind goIfTrue the run falls through exactly if the value is true, and leaves through the false list with the value still available otherwise |
| `LuaExpressions.GoIfFalseTracks` | Godeps/_workspace/src/github.com/Shopify/go-lua/code.go:803-816 | behind goIfFalse the run falls through exactly if the value is false |
| `LuaExpressions.NotTracks` | Godeps/_workspace/src/github.com/Shopify/go-lua/code.go:818-837 | encodeNot negates the value on every way out: in place, through the swapped lists, and with the TESTSETs demoted |
| `LuaExpressions.CompareTracks` | Godeps/_workspace/src/github.com/Shopify/go-lua/code.go:919-941 | a comparison (with the operands exchanged for > and >=) jumps exactly if the relation holds, and the first operand still has its value behind the code of the second |
| `LuaCorrectness.ExpressionToRegisterTracks` | Godeps/_workspace/src/github.com/Shopify/go-lua/code.go:655-675 | expressionToRegister: whichever way the expression is left, the value is in the register, through the two LOADBOOLs for exits that carry no value |
| `LuaCorrectness.PatchBothTracks` | Godeps/_workspace/src/github.com/Shopify/go-lua/code.go:655-675 | sending both lists to the end or to the LOADBOOLs leaves the value in the register on every way out |
| `LuaShape.CompileShape` | Godeps/_workspace/src/github.com/Shopify/go-lua/code.go:884-958 | structure kept by every expression: pending jumps are exactly those of the lists, each behind its test, lists are disjoint and duplicate-free, settled jumps stay inside, other pending jumps untouched, at most one temporary register is held |
| `LuaMachine.RunPatched` | Godeps/_workspace/src/github.com/Shopify/go-lua/vm.go:610-713 | running patched code from anywhere is running the unpatched code up to a patched jump, storing what its TESTSET stores, and going on at the destination |
| `LuaMachine.RunAppend` | Godeps/_workspace/src/github.com/Shopify/go-lua/vm.go:610-713 | appended instructions do not change a run until it gets to them |
| `LuaMachine.RunRelinked` | Godeps/_workspace/src/github.com/Shopify/go-lua/code.go:515-528 | relinking pending jumps is invisible to every run |
| `LuaRuns.EmitLoadNilRun` | Godeps/_workspace/src/github.com/Shopify/go-lua/code.go:355-367 | loadNil, merged with a LOADNIL just emitted or not, sets exactly the register and keeps the others |
| `LuaBuilder.Builder.Concatenate` | Godeps/_workspace/src/github.com/Shopify/go-lua/code.go:515-528 | on lists threaded through sBx fields: the result is threaded and is the first list followed by the second; the walk ends; every other instruction is as before |
| `LuaBuilder.Builder.PatchListHelper` | Godeps/_workspace/src/github.com/Shopify/go-lua/code.go:470-481 | retargets exactly the members of the list and rewrites exactly the TESTSETs in front of them, though the links it walks are what it overwrites; every other instruction is as before |
| `LuaBuilder.Builder.NeedsValue` | Godeps/_workspace/src/github.com/Shopify/go-lua/code.go:442-450 | the walk ends, and tells exactly whether some member is not controlled by a TESTSET |
| `LuaBuilder.Builder.RemoveValues` | Godeps/_workspace/src/github.com/Shopify/go-lua/code.go:463-468 | demotes exactly the TESTSETs of the members to TESTs |
| `LuaBuilder.Builder.EmitInstr` | Godeps/_workspace/src/github.com/Shopify/go-lua/code.go:306-312 | discharges the jumps to here, then appends |
| `LuaBuilder.Builder.EmitJumpInstr` | Godeps/_workspace/src/github.com/Shopify/go-lua/code.go:369-374 | a new jump takes over the jumps to here as the rest of its list |
| `LuaBuilder.Builder.PatchListToHere` | Godeps/_workspace/src/github.com/Shopify/go-lua/code.go:507-513 | adds a list to the jumps to here |
| `LuaBuilder.Builder.ToRegister` | Godeps/_workspace/src/github.com/Shopify/go-lua/code.go:655-675 | the in-place code refines the function that the correctness theorem is about |
| `LuaBuilder.Builder.ToOperand` | Godeps/_workspace/src/github.com/Shopify/go-lua/code.go:710-732 | the same for expressionToRegisterOrConstant |
| `LuaBuilder.Builder.GoIf` | Godeps/_workspace/src/github.com/Shopify/go-lua/code.go:787-816 | the same for goIfTrue and goIfFalse, with the lists threaded in the code |
| `LuaBuilder.Builder.Not` | Godeps/_workspace/src/github.com/Shopify/go-lua/code.go:818-837 | the same for encodeNot |
| `LuaBuilder.Builder.CompileExpr` | Godeps/_workspace/src/github.com/Shopify/go-lua/code.go:884-958 | for every expression the in-place generator ends in the state that the functional one computes, with its two lists threaded through the code |
| `LuaBuilder.Builder.CompileToNextRegister` | Godeps/_workspace/src/github.com/Shopify/go-lua/code.go:677-683 | a new function body with one expression, end to end |
| `LuaBuilder.ThreadedPatched` | Godeps/_workspace/src/github.com/Shopify/go-lua/code.go:470-481 | patching one list leaves a disjoint list threaded |
| `LuaBuilder.ThreadedLinked` | Godeps/_workspace/src/github.com/Shopify/go-lua/code.go:515-528 | concatenating two lists leaves a third, disjoint one threaded |
| `LuaInstructions.SBxRoundTrip` | Godeps/_workspace/src/github.com/Shopify/go-lua/instructions.go:139-163 | an offset of up to 131071 either way is read back from sBx, and opcode and A stay |
| `LuaInstructions.CreateABC` | Godeps/_workspace/src/github.com/Shopify/go-lua/instructions.go:165-170 | fields within their widths are read back |
| `LuaInstructions.CreateABx` | Godeps/_workspace/src/github.com/Shopify/go-lua/instructions.go:172-176 | fields within their widths are read back |
| `LuaParser.Parser.ParseSubExpression` | Godeps/_workspace/src/github.com/Shopify/go-lua/parser.go:259-280 | the loop-and-recursion parser refines the functional one, returns the operator it stopped at, and leaves as many nesting levels as it entered |
| `LuaParser.SubExpressionSound` | Godeps/_workspace/src/github.com/Shopify/go-lua/parser.go:249-280 | for every token sequence and limit: the tree yields exactly the tokens consumed, has the precedences and associativities of section 3.4.7 of the Lua 5.2 Reference Manual, and the parser stopped only because no binary operator above the limit came next |
| `LuaParser.ParsesBack` | Godeps/_workspace/src/github.com/Shopify/go-lua/parser.go:249-280 | for every conforming tree, its tokens are read back as that tree exactly if its nesting is within the levels left |
| `LuaParser.ConformingTreeIsUnique` | Godeps/_workspace/src/github.com/Shopify/go-lua/parser.go:249-257 | a conforming tree is determined by its tokens |
| `LuaParser.AcceptsExactly` | Godeps/_workspace/src/github.com/Shopify/go-lua/parser.go:259-280 | a whole token sequence is accepted exactly if it is the yield of a conforming tree that is not nested too deep |
| `LuaUpvalues.Execute` | Godeps/_workspace/src/github.com/Shopify/go-lua/stack.go:40-116 | for every run of local reads and writes, closure creation, upvalue reads and writes and closes, the program sees exactly what it would see if each variable were one shared cell |
| `LuaUpvalues.State.CloseUpValues` | Godeps/_workspace/src/github.com/Shopify/go-lua/stack.go:103-116 | no upvalue stays open at or above the level, every upvalue keeps its variable and value, only open ones at or above the level are closed (so none twice), and every open one stays in the list, though closed nodes may linger in it |
| `LuaUpvalues.State.FindUpValue` | Godeps/_workspace/src/github.com/Shopify/go-lua/stack.go:215-222 | found or new, the upvalue stands for the variable in the slot |
| `LuaUpvalues.State.NewUpValueAt` | Godeps/_workspace/src/github.com/Shopify/go-lua/stack.go:97-101 | a new open upvalue at the head of the list, for a slot that has none |
| `LuaUpvalues.State.NewClosure` | Godeps/_workspace/src/github.com/Shopify/go-lua/stack.go:224-235 | each upvalue of the closure stands for the variable that its prototype names, in the frame or in the enclosing closure |
| `LuaUpvalues.State.SetUpValue` | Godeps/_workspace/src/github.com/Shopify/go-lua/stack.go:48-55 | writes exactly the variable that the upvalue stands for |
| `LuaUpvalues.State.Read` | Godeps/_workspace/src/github.com/Shopify/go-lua/stack.go:40-46 | reads the variable, open or closed |
| `LuaUpvalues.State.OneOpenPerSlot` | Godeps/_workspace/src/github.com/Shopify/go-lua/stack.go:215-222 | two upvalues open at the same slot are the same |
| `LuaUpvalues.CloseSeparates` | Godeps/_workspace/src/github.com/Shopify/go-lua/stack.go:70-76 | of the cells: closing changes nothing that a closure reads; before it a write to the slot is seen by every closure that captured it, after it by none |
| `LuaTables.Table.At` | Godeps/_workspace/src/github.com/Shopify/go-lua/tables.go:94-109 | every lookup is answered by the one map that the table stands for |
| `LuaTables.Table.PutAtInt` | Godeps/_workspace/src/github.com/Shopify/go-lua/tables.go:82-92 | updates the map, through the array, a resize or the hash |
| `LuaTables.Table.PutKey` | Godeps/_workspace/src/github.com/Shopify/go-lua/tables.go:111-138 | updates the map, or errs for nil and NaN and changes nothing |
| `LuaTables.Table.TryPut` | Godeps/_workspace/src/github.com/Shopify/go-lua/tables.go:141-166 | acts as put exactly for a key that is present (and a value, or a slot of the array part), and changes nothing otherwise |
| `LuaTables.Table.ExtendArray` | Godeps/_workspace/src/github.com/Shopify/go-lua/tables.go:39-51 | migration from the hash part to the array part keeps the map, in any order of the entries, and leaves no key of the array's range in the hash part |
| `LuaTables.Table.MaybeResizeArray` | Godeps/_workspace/src/github.com/Shopify/go-lua/tables.go:60-80 | resizes exactly if half of the slots up to the key would be occupied, and keeps the map |
| `LuaTables.Table.SetList` | Godeps/_workspace/src/github.com/Shopify/go-lua/vm.go:859-879 | SETLIST's copy is putting the values one by one |
| `LuaTables.Table.Length` | Godeps/_workspace/src/github.com/Shopify/go-lua/tables.go:189-206 | ends, and returns a border exactly if the search is not misled by sums beyond 63 bits; on every sequence returns its length |
| `LuaTables.Table.UnboundSearch` | Godeps/_workspace/src/github.com/Shopify/go-lua/tables.go:168-187 | the doubling and bisecting search, with its overflow branch: a border exactly if not misled |
| `LuaTables.Table.Bisect` | Godeps/_workspace/src/github.com/Shopify/go-lua/tables.go:178-186 | bisection with 64-bit wrap-around of i + j |
| `LuaTables.Table.SearchFromOne` | Godeps/_workspace/src/github.com/Shopify/go-lua/tables.go:172-176 | the plain search in the overflow branch ends at a border, because a finite table has a gap |
| `LuaTables.Table.NotMisled` | Godeps/_workspace/src/github.com/Shopify/go-lua/tables.go:168-187 | without whole-number keys from 2^61 on the search is not misled |
| `LuaTables.Table.SequenceBorder` | Godeps/_workspace/src/github.com/Shopify/go-lua/tables.go:189-206 | the only border of a sequence is its length |
| `LuaTables.MakeMisled` | Godeps/_workspace/src/github.com/Shopify/go-lua/tables.go:189-206 | by puts and one list constructor a table is made whose length is no border |
| `LuaTables.LengthMisled` | Godeps/_workspace/src/github.com/Shopify/go-lua/tables.go:178-186 | a table for which the returned length is no border: six elements and the keys 7, 14, ..., 7 * 2^59 |
| `GrpcSendFlow.NeverExceedsCredit` | Godeps/_workspace/src/google.golang.org/grpc/transport/http2_client.go:444-521 | in every interleaving of writers, window updates, window raises, stream closes and failing waits: bytes sent on each stream and on the connection never exceed the credit granted (section 6.9.1 of RFC 7540), no frame exceeds 16384 bytes, and pools + holdings + bytes sent equal the credit exactly if no wait failed while holding quota |
| `GrpcSendFlow.StepKeeps` | Godeps/_workspace/src/google.golang.org/grpc/transport/http2_client.go:444-521 | every step of every participant keeps the accounts of all streams and of the connection |
| `GrpcSendFlow.AdvanceBalanced` | Godeps/_workspace/src/google.golang.org/grpc/transport/http2_client.go:450-483 | each step of a writer moves quota between pool, writer and wire without loss |
| `GrpcSendFlow.AbandonBalanced` | Godeps/_workspace/src/google.golang.org/grpc/transport/http2_server.go:537-550 | a writer that fails loses exactly what it held |
| `GrpcSendFlow.QuotaPool.AddQuota` | Godeps/_workspace/src/google.golang.org/grpc/transport/control.go:120-132 | nothing is lost or created, and quota is on offer afterwards if there is any |
| `GrpcSendFlow.QuotaPool.CancelOffer` | Godeps/_workspace/src/google.golang.org/grpc/transport/control.go:135-143 | takes the offer back into the pool |
| `GrpcSendFlow.QuotaPool.ResetQuota` | Godeps/_workspace/src/google.golang.org/grpc/transport/control.go:147-164 | adjusts the total by the given amount |
| `GrpcReceiveFlow.ConformingPeerIsServed` | Godeps/_workspace/src/google.golang.org/grpc/transport/control.go:191-260 | in every run with a peer that keeps to its credit: onData never rejects, no uint32 wraps around, the connection's pendingData is the sum over the streams, and the peer's credit is the limit less what is pending, not yet given back or under way, on the connection also less exactly what came in for closed streams |
| `GrpcReceiveFlow.NeverStalled` | Godeps/_workspace/src/google.golang.org/grpc/transport/control.go:210-246 | with everything read and nothing under way the peer has at least three quarters of every window, of the connection's less exactly what came in for closed streams |
| `GrpcReceiveFlow.DroppedIff` | Godeps/_workspace/src/google.golang.org/grpc/transport/http2_client.go:563-568 | over a run no byte is dropped exactly if every frame with data arrives before its stream is closed |
| `GrpcReceiveFlow.DroppedIsLost` | Godeps/_workspace/src/google.golang.org/grpc/transport/http2_client.go:563-568 | dropped bytes are missing from the connection's credit in every continuation; with a whole window dropped no stream can ever send again |
| `GrpcReceiveFlow.WindowDropped` | Godeps/_workspace/src/google.golang.org/grpc/transport/http2_client.go:563-568 | one stream, closed with a whole window under way, drops it, for every window |
| `GrpcReceiveFlow.StepKeeps` | Godeps/_workspace/src/google.golang.org/grpc/transport/control.go:191-260 | every step keeps the accounts |
| `GrpcReceiveFlow.InFlow.Charge` | Godeps/_workspace/src/google.golang.org/grpc/transport/control.go:191-207 | charges the stream and the connection, or neither |
| `GrpcReceiveFlow.InFlow.OnReadUpdate` | Godeps/_workspace/src/google.golang.org/grpc/transport/control.go:228-246 | moves bytes from pending data to pending update and sends it on from a quarter of the limit |
| `GrpcReceiveFlow.InFlow.ConnOnReadUpdate` | Godeps/_workspace/src/google.golang.org/grpc/transport/control.go:210-224 | the same on the connection |
| `GrpcReceiveFlow.InFlow.Restore` | Godeps/_workspace/src/google.golang.org/grpc/transport/control.go:250-260 | gives a closed stream's share back to the connection |
| `GrpcMessages.Transfer` | Godeps/_workspace/src/google.golang.org/grpc/rpc_util.go:134-192 | for every sequence of messages, all quotas, all arrival times and all sizes of reads, the receiver gets exactly the messages that encode accepts, in order |
| `GrpcMessages.Reader.RecvMsg` | Godeps/_workspace/src/google.golang.org/grpc/rpc_util.go:134-157 | takes exactly the next message off the byte stream, or reports its end, expected or not |
| `GrpcMessages.Reader.Read` | Godeps/_workspace/src/google.golang.org/grpc/transport/transport.go:132-153 | at least one byte, in order, whatever arrives meanwhile, unless the stream has ended |
| `GrpcMessages.RecvBuffer.Put` | Godeps/_workspace/src/google.golang.org/grpc/transport/transport.go:89-98 | appends to the queue and leaves an item on offer |
| `GrpcMessages.RecvBuffer.Load` | Godeps/_workspace/src/google.golang.org/grpc/transport/transport.go:100-110 | keeps the queue, and leaves an item on offer if there is one |
| `GrpcMessages.Write` | Godeps/_workspace/src/google.golang.org/grpc/transport/http2_client.go:444-521 | the frames carry exactly the data, in order, none empty or longer than 16384 bytes |
| `GrpcMessages.Encode` | Godeps/_workspace/src/google.golang.org/grpc/rpc_util.go:161-192 | header and body, or an error for a body that the length cannot describe |
| `GrpcMessages.ReceivesFramed` | Godeps/_workspace/src/google.golang.org/grpc/rpc_util.go:134-192 | round trip of one message, whatever follows |
| `GrpcMessages.Uint32RoundTrip` | Godeps/_workspace/src/google.golang.org/grpc/rpc_util.go:144-187 | the big-endian length is read back |
| `GrpcConn.ConnectionIsSafe` | Godeps/_workspace/src/google.golang.org/grpc/clientconn.go:355-536 | in every run: Ready implies an installed, unclosed transport; a ready channel is pending only outside Ready and Shutdown and every other one was closed exactly once; at most one transport is open; once the connecting goroutine has returned, the state is Shutdown and every transport is closed |
| `GrpcConn.ShutdownStays` | Godeps/_workspace/src/google.golang.org/grpc/clientconn.go:513-536 | Shutdown is absorbing |
| `GrpcConn.WaitersAreReleased` | Godeps/_workspace/src/google.golang.org/grpc/clientconn.go:481-506 | no caller of Wait stays blocked in Ready or Shutdown or on a channel that nobody will close, and one that succeeds reads an installed transport |
| `GrpcConn.ExtendsRun` | Godeps/_workspace/src/google.golang.org/grpc/clientconn.go:355-536 | every step that is enabled behind a run is defined: no run gets stuck on a missing channel or transport |
| `GrpcConn.StepKeeps` | Godeps/_workspace/src/google.golang.org/grpc/clientconn.go:355-536 | every step keeps the invariant and none leaves Shutdown |
| `Protobuf.Buffer.EncodeDelimited` | Godeps/_workspace/src/github.com/golang/protobuf/proto/encode.go:1282-1307 | reserve, encode, shift and backpatch leave exactly the old bytes, the length as a varint and the body in the buffer, nested to any depth, though the body is uncovered from behind the slice's end |
| `Protobuf.Buffer.EncodeVarint` | Godeps/_workspace/src/github.com/golang/protobuf/proto/encode.go:99-106 | appends the varint and leaves the bytes behind it in place while there is room |
| `Protobuf.EncodeVarintBytes` | Godeps/_workspace/src/github.com/golang/protobuf/proto/encode.go:83-93 | the varint in at most ten bytes |
| `Protobuf.SizeVarint` | Godeps/_workspace/src/github.com/golang/protobuf/proto/encode.go:108-117 | the length of the varint |
| `Protobuf.DecodesVarint` | Godeps/_workspace/src/github.com/golang/protobuf/proto/decode.go:85-108 | round trip for every uint64, whatever follows |
| `Protobuf.Buffer.DecodeVarint` | Godeps/_workspace/src/github.com/golang/protobuf/proto/decode.go:85-108 | on every input: the value modulo 2^64, end of input, or overflow, and the index moves only on success |
| `Protobuf.Buffer.DecodeRawBytes` | Godeps/_workspace/src/github.com/golang/protobuf/proto/decode.go:182-208 | on every input: the body and the index right behind it, exactly if the length fits, with the 64-bit conversions |
| `Protobuf.DecodesDelimited` | Godeps/_workspace/src/github.com/golang/protobuf/proto/decode.go:182-208 | what was encoded with its length is decoded to the body, up to right behind it |
| `Protobuf.Buffer.Skip` | Godeps/_workspace/src/github.com/golang/protobuf/proto/decode.go:250-284 | where skip ends up and when it fails, on every input |
| `Protobuf.SkipsField` | Godeps/_workspace/src/github.com/golang/protobuf/proto/decode.go:250-284 | skipping a well-formed field, with groups nested to any depth and varints canonical or not, consumes exactly that field |
| `Protobuf.SkipIsSound` | Godeps/_workspace/src/github.com/golang/protobuf/proto/decode.go:250-284 | what skip accepts is a well-formed field |
| `MockClock.Mock.Set` | Godeps/_workspace/src/github.com/benbjohnson/clock/clock.go:92-107 | ends at the target time; each timer fires exactly at the times it is due up to the target, in non-decreasing order; one-shot timers that fired are removed and no others; nothing stays due |
| `MockClock.Mock.Add` | Godeps/_workspace/src/github.com/benbjohnson/clock/clock.go:70-88 | the same, in full, for the current time plus a duration |
| `MockClock.Mock.RunNextTimer` | Godeps/_workspace/src/github.com/benbjohnson/clock/clock.go:112-138 | fires one earliest timer if it is due and moves the clock to its time, else changes nothing |
| `MockClock.Mock.RunAll` | Godeps/_workspace/src/github.com/benbjohnson/clock/clock.go:74-79 | the loop ends, because no more can fire than is due |
| `MockClock.Mock.NewTimer` | Godeps/_workspace/src/github.com/benbjohnson/clock/clock.go:174-202 | a new timer or ticker is due after its delay, and is the only change |
| `MockClock.Mock.Remove` | Godeps/_workspace/src/github.com/benbjohnson/clock/clock.go:204-216 | removes exactly that timer |
| `MockClock.Mock.Tick` | Godeps/_workspace/src/github.com/benbjohnson/clock/clock.go:254-293 | a one-shot timer is removed, a ticker is due again after its period |
| `MockClock.DueCount` | Godeps/_workspace/src/github.com/benbjohnson/clock/clock.go:286-293 | a ticker fires exactly as often as its period fits, at equal distances |
| `LuaStrings.PrintThenScan` | Godeps/_workspace/src/github.com/Shopify/go-lua/string.go:108-126 | for every string, reading back what %q wrote gives that string, without an error |
| `LuaStrings.QuotedReadsBack` | Godeps/_workspace/src/github.com/Shopify/go-lua/scanner.go:335-389 | the same with anything behind the literal, which is left unread, and with the lines counted |
| `LuaStrings.ScansPiece` | Godeps/_workspace/src/github.com/Shopify/go-lua/string.go:112-124 | each written byte is read back, also a control byte before a digit |
| `LuaStrings.Scanner.ReadString` | Godeps/_workspace/src/github.com/Shopify/go-lua/scanner.go:347-389 | on every input, what the literal stands for, or an error, for all escapes |
| `LuaStrings.Scanner.ReadDecimalEscape` | Godeps/_workspace/src/github.com/Shopify/go-lua/scanner.go:335-345 | up to three digits, and an error above 255 |
| `LuaStrings.Scanner.IncrementLineNumber` | Godeps/_workspace/src/github.com/Shopify/go-lua/scanner.go:111-120 | skips one line break, also of two characters |
| `LuaStrings.FormatQ` | Godeps/_workspace/src/github.com/Shopify/go-lua/string.go:108-126 | what %q writes, byte by byte |
| `Skip32.RoundsUndone` | Godeps/_workspace/src/github.com/dgryski/go-skip32/skip32.go:74-81 | for any round function, any number of rounds and any step between round numbers: the rounds in the opposite order undo the rounds, between two swaps of the halves |
| `Skip32.CryptInverse` | Godeps/_workspace/src/github.com/dgryski/go-skip32/skip32.go:60-88 | decryption undoes encryption and encryption undoes decryption |
| `Skip32.CodeInverse` | Godeps/_workspace/src/github.com/dgryski/go-skip32/skip32.go:113-145 | for every key, Unobfus inverts Obfus and Obfus inverts Unobfus |
| `Skip32.Decodes64` | Godeps/_workspace/src/github.com/dgryski/go-skip32/skip32.go:148-175 | for every key, UnObfus64 inverts Obfus64 |
| `Skip32.Codes64` | Godeps/_workspace/src/github.com/dgryski/go-skip32/skip32.go:148-175 | for every key, Obfus64 inverts UnObfus64 |
| `Skip32.Crypt32` | Godeps/_workspace/src/github.com/dgryski/go-skip32/skip32.go:60-88 | the in-place loop of doubled rounds computes the rounds one by one, with the swap at the end |
| `Skip32.Obfus` | Godeps/_workspace/src/github.com/dgryski/go-skip32/skip32.go:113-127 | through a four-byte buffer, the encryption of the four bytes of the integer |
| `SchedulerDroplets.WaitDropletsAreExact` | scheduler/db.go:71-203 | in every interleaving, waitDroplets has exactly the droplets whose launchers have not finished, none of them was deleted as unexpected, and a launcher only gets a port that its own droplet registered |
| `SchedulerDroplets.SuccessIsExact` | scheduler/db.go:149-171 | a call of LaunchExecutors that succeeds has exactly the executors of its launchers that joined, with distinct droplets and ports that those registered |
| `SchedulerDroplets.StepKeeps` | scheduler/db.go:71-203 | every step keeps the invariant |
| `SchedulerDroplets.FullSuccessIff` | scheduler/db.go:149-171 | a call that succeeds has all the executors asked for exactly if every launcher joined: always without an error and a cancellation, and never with an error, though it may succeed with one pending |
| `SchedulerDroplets.OnceNeverBlocks` | scheduler/db.go:187-203 | in every run in which no droplet registers twice, every registration gets through |
| `SchedulerDroplets.RegisterBlocksIff` | scheduler/db.go:187-203 | before the call: a registration blocks with the lock held exactly if an earlier port of the droplet is still in its channel, and blocks for good from the start exactly if, besides, the droplet's launcher has taken its port or has seen the cancellation |
| `SchedulerDroplets.StaysDeadlocked` | scheduler/db.go:187-203 | a deadlocked registration stays so over every continuation, and the lock is never released |
| `SchedulerDroplets.BlockedCanProceed` | scheduler/db.go:116-143 | a blocked registration can get through, at once or after its launcher took the port, exactly if it is not deadlocked |
| `SchedulerDroplets.SecondRegistrationDeadlocks` | scheduler/db.go:187-203 | two registrations of a droplet are enough for a deadlock, with a cancellation in between |
| `LoadRates.SharesAreFine` | scheduler/db.go:308-309 | for every request that starts at or below its maximum: it is admitted exactly if its shares pass the executor's rate checks, and then no share is above what an executor may do and the shares sum to at most the request |
| `LoadRates.JoinedShares` | scheduler/db.go:308-309 | for any number of executors that joined: the exact condition for a share to be within what an executor may do, met if all needed joined; the shares sum to at most the request; and those of an admitted request pass the rate checks also if fewer joined |
| `LoadRates.NeedBounds` | scheduler/server.go:70-72 | the number of executors is the smallest that can carry the maximum |
| `LoadRates.RateErrorIff` | executor/controller/executor_grpc_listener.go:162-175 | the executor reports a rate error exactly for a start of 10 or less or a maximum below the start |
| `LoadRates.NoExecutorsForNothing` | scheduler/server.go:70-76 | a maximum of zero or less is never served |
| `LoadRates.SteadyIff` | executor/controller/controller.go:86-141 | over every run the rate stays between the shares, never falls, and jobs per tick are at most a tenth of the maximal share, exactly if the factor is a number and the first product, as rounded to a float64, stays within 64-bit integers |
| `LoadRates.GrowthPeriodIs` | executor/controller/controller.go:96 | of every accepted command the growth period is its whole seconds, so positive exactly from one second on, up to the longest duration; without a number or beyond 64-bit integers it is zero |
| `LoadRates.GrowthPeriodFails` | executor/controller/executor_grpc_listener.go:176-178 | two accepted times between growths whose period is zero and negative |
| `LoadRates.RunScript` | executor/controller/controller.go:86-141 | the event loop sends the jobs and reaches the rate that the step function gives, also when ticks are cut short |
| `LoadRates.GrowthOverflows` | executor/controller/controller.go:131-140 | a factor that is no number, or takes the starting rate to 2^63 or more, makes the rate the smallest integer at the first growth, whatever ticks come before |

## Left out

- LuaTheorem.NextRegisterCorrect: requires that no limit was met (LuaLimits says when in any case not); that a met limit shows in a run is stated for single constants, for `and` of two locals and for `not` of a local, since the code that meets it may be unreachable.
- LuaBuilder.Builder.ToOperand: and GoIf, Not, CompileExpr and CompileToNextRegister, require that no limit was met, since registers that are not freed upset the account of registers that the shape of the code rests on.
- LuaTheorem.ExpressionCorrect: comparisons are an arbitrary function of two values that may raise an error; numbers are bit patterns; there are no metamethods, upvalues, tables, calls, arithmetic or concatenation, and no constant folding.
- LuaBuilder.Builder.CompileExpr: instructions are a datatype, not words (LuaWords relates the two); errors are a flag that is never taken back instead of unwinding the stack; line information is not kept.
- LuaParser.Parser.ParseSubExpression: operands are single tokens and parenthesised expressions; calls, indexing, constructors and functions as operands are not parsed.
- LuaUpvalues.Execute: one Lua state; the closure cache, which compares contents instead of cells, is not used.
- LuaTables.Table.PutAtInt: and the other puts, for tables of fewer than 2^52 entries, more than fit into memory.
- LuaTables.Table.Length: for tables of fewer than 2^53 entries.
- LuaTables.Table.SetList: does not model the operand decoding of the instruction.
- GrpcSendFlow.NeverExceedsCredit: settings that lower the initial window are excluded, because the code subtracts as uint32 before widening; the server's early return for an empty message is not distinguished from the client's empty frame.
- GrpcReceiveFlow.ConformingPeerIsServed: the reset of a stream and the end-of-stream flag are not modelled.
- GrpcMessages.Transfer: no cancellation and no failing wait; the codec's own marshalling is not part of this model.
- GrpcConn.ConnectionIsSafe: time-outs are arbitrary choices; WaitForStateChange, tracing and dialing are not modelled.
- Protobuf.Buffer.EncodeDelimited: the reflection-driven field encoders are a tree of plain bytes, nested things and errors.
- MockClock.Mock.Set: callbacks that touch the clock and the contents of the timers' channels are not modelled.
- LuaStrings.QuotedReadsBack: requires that the line counter does not reach the largest int.
- LoadRates.SteadyIff: the rounding of the growth product is any monotonic one that is exact on 53-bit integers and 2^62; the number of iterations is a tenth of the rate in real numbers.
- Table traversal with `next`, the metamethod cache, HPACK, TLS, sockets, dialing, godo, influx persistence, command-line programs and generated code are not modelled.
- Math, io, os and bit32 libraries of Lua, and the statement parser, would only add easier members.
