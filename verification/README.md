# cupid-os: a verified model of its compiler, file system and small tools

cupid-os is a 32-bit hobby operating system. This project models the parts of it that do the most work behind a simple
promise, and proves the promise:

- **The CupidC compiler** (`bin/cupidc_parse.c`, `bin/cupidc_lex.c`) reads C-like text once, token by token, and emits
  x86 bytes as it goes. The model runs those bytes on a small processor and proves that they do what the source says.
- **The FAT16 driver and its VFS adapter** (`bin/fat16.c`, `bin/fat16_vfs.c`). The model goes from sectors to files and
  proves what every run of operations keeps, that files read back as written, and that closing a file is all or nothing.
- **The line editor** (`bin/ed.cc`): its pattern matcher against the language of a pattern, and its pointer arrays
  against a plain sequence of lines with undo.
- **The preprocessor** (`bin/cupidc.c`): its stack of flags against nested blocks, and its macro expansion against an
  automaton that tells words from strings and comments. **16.16 fixed-point division** in the same file.
- **The SSH packet layer** (`bin/ssh.cc`), section 6 of RFC 4253, and **the HTTP chunked decoder** (`bin/ctxt.cc`),
  section 7.1 of RFC 9112.

## How the proofs are layered

The compiler has four layers. `Cupid` gives the language a meaning by an evaluator with fuel: each call and each round
of a loop spends a unit. `Codegen` says which bytes stand for which construct. `Operators`, `Frames`, `ExprCorrect`,
`StmtCorrect` and `ProgramCorrect` prove that running those bytes agrees with the evaluator; `WordLaws` states the
arithmetic of both by laws, and `Opcodes` lists the bytes. `Parser` is the one-pass compiler as functions on a state;
`ParseExprs`, `ParseStmts`, `CallSites` and `ParsePrograms` prove that, given the printed text of a program, it ends
with exactly the bytes of `Codegen`, every jump and call patched. `ParseChains` says how operators group, from a list
of the ten levels and without the precedences that the parser and the printer share. `OnePass` is the
compiler as the source has it: a class that changes a code buffer, a symbol table and a lookahead token, each method
proved equal to its function in `Parser`. `Effects` and `FrameAlloc` state what compiled code leaves alone, how much
stack it takes and where locals lie.

The stack is finite in the model: a push below the limit ends the run in `Overflow`. The theorems say how many bytes
rule that out. A call-free expression needs `NeedE(e)` bytes. A call into a program needs one activation (the largest
frame and the temporaries of its body) more than the source run has units of fuel, because nested calls each spend one.

The file system has three layers. `FatTable`, `FatVolume` and `FatFiles` work on values: a table of links, directory
slots, cluster contents. `FatDisk` lays these out in sectors, and `FatLayout` says where each byte of them is.
`FatDriver` and `FatVfs` are classes that change sectors,
descriptors and write buffers in place, each method proved equal to the operation on values; `FatReads` and `FatRuns`
are about reading in pieces and about whole runs of the driver, `FatOpen` about opening files and whole sessions of
open, write and close, and `FatLoose` about damaged tables whose links lead anywhere. The editor (`EdLines`), the
preprocessor (`PpPass`) and the two ends of the packet layer (`SshWire`) are classes in the same way, over `EdRegex`,
`PpText`, `PpTree`, `PpFiles`, `SshBytes` and `SshPackets`. `PpWords`, `SshFormat` and `ChunkDigits` describe texts,
packets and messages character by character, without the definitions that reading and writing them share.

Where the code does not meet a promise, the code is modelled as it is, a lemma gives an input on which it fails, and
another says for all inputs exactly when it holds. These are listed under "Findings".

## Findings

| what fails | input | exactly when it holds |
|---|---|---|
| Popping call arguments cuts the byte count to eight bits and sign-extends it (`bin/cupidc_parse.c:134-140`). | `ExprCorrect.PopsTooLittle` | `ExprCorrect.PopsExactly`: fewer than 32 |
| A read adds position and count in 32 bits, so it can return the padding behind a file (`bin/fat16.c:377-484`). | `FatReads.ReadPastEnd` | `FatReads.ReadExactly`, and `FatReads.ReadsJoin` for sequences |
| A name that starts with byte 0xE5 makes an entry that counts as deleted, and its clusters are lost (`bin/fat16.c:606-979`, `1120-1224`). | `FatFiles.WriteLoses`, `FatFiles.MkdirLoses` | `FatFiles.WriteValidExactly`, `FatFiles.MkdirValidExactly`, `FatNames.ProperNames` |
| Saving for undo ignores a failed allocation, so undo brings back empty lines (`bin/ed.cc:162-182`). | `EdLines.UndoLoses` | `EdLines.UndoRestores` |
| Fixed-point division doubles the remainder in 31 bits (`bin/cupidc.c:288-322`). | `FixedPoint.DivFails` | `FixedPoint.Div`, `FixedPoint.RestIs` |
| Seeking adds in 32 bits, so a target of 2 GB or more leads to the start of the file (`bin/fat16_vfs.c:312-329`). | `FatVfs.SeekWraps` | `FatVfs.SeekExactly` |
| Closing a written file deletes it first; if the new bytes do not fit and the file was empty or could not be backed up, it is lost (`bin/fat16_vfs.c:209-266`). | `FatOpen.LostFile` | `FatVfs.CloseOutcome` |
| Opening with O_CREAT takes a failed open for a missing file, so with all descriptors in use it overwrites the file with an empty one (`bin/fat16_vfs.c:149-160`). | `FatOpen.OpenErases` | `FatOpen.OpenKeepsExactly` |
| The end of a chunk is computed in 32 bits, so a huge size is not cut at the end of the message (`bin/ctxt.cc:517`). | `Chunked.WrappedSize` | `Chunked.OutExactly` |
| Moving lines leaves the marks at their line numbers, so that they show other lines (`bin/ed.cc:1264-1313`). | `EdLines.LostMark` | `EdLines.MovedMarks` |
| The SSH sender accepts packets up to 64 KB that the receiver refuses (`bin/ssh.cc:339`, `397`, `432`). | `SshPackets.TooLong` | `SshPackets.PacketArrives` |

Two comments in the source disagree with its code; the model follows the code. `bin/fat16.c:595-606` says that files are
written to the root directory, but names with a slash go to a subdirectory. `bin/fat16_vfs.c:247-253` reports a rollback
as failed unless the write returns 0, but a successful write returns the number of bytes.

## Model

| member | source | states |
|---|---|---|
| X86.DecodeInvertsEncode | bin/cupidc_parse.c:58-218 | The bytes emitted for an instruction decode to that instruction again, whatever bytes follow them |
| Opcodes.OperatorsEmit | bin/cupidc_parse.c:675-835 | The code of each of the 18 binary operators is, byte for byte, the sequence of opcodes listed for it |
| Opcodes.NumbersEmit | bin/cupidc_parse.c:34-124 | Constants, calls and jumps are their opcode and four bytes, the lowest first |
| Opcodes.VariablesEmit | bin/cupidc_parse.c:63-75 | So are the loads and stores of variables, relative to ebp |
| Opcodes.BumpEmits | bin/cupidc_parse.c:1226-1282 | ++ and -- load, change and store the variable, byte for byte |
| Opcodes.FramesEmit | bin/cupidc_parse.c:142-164 | Prologue, epilogue and the unary operators, byte for byte |
| WordLaws.DivisionLaw | bin/cupidc_parse.c:696-717 | Quotient and remainder make up the dividend, and the remainder is smaller than the divisor and has the sign of the dividend |
| WordLaws.DivisionUnique | bin/cupidc_parse.c:696-717 | No other quotient and remainder do |
| WordLaws.TrapsExactly | bin/cupidc_parse.c:696-717 | Division traps exactly for a zero divisor and for -2^31 / -1 |
| WordLaws.RingLaws | bin/cupidc_parse.c:680-695 | Sum, difference and product are those of the signed numbers, modulo 2^32 |
| WordLaws.LogicByBits | bin/cupidc_parse.c:768-780 | And, or and exclusive or hold bit by bit, for each of the 32 bits |
| WordLaws.ShiftLeftBits | bin/cupidc_parse.c:781-789 | `<<` moves every bit up by the low five bits of the count and fills with zeros |
| WordLaws.ShiftRightBits | bin/cupidc_parse.c:790-797 | `>>` moves every bit down and repeats the sign bit |
| WordLaws.NotBits | bin/cupidc_parse.c:1209-1216 | `~` turns every bit over |
| WordLaws.UnaryLaws | bin/cupidc_parse.c:1197-1225 | Unary minus is the negative number modulo 2^32, and `!` tells whether a word is zero |
| Operators.UnRuns | bin/cupidc_parse.c:1197-1225 | The code of `-`, `~` and `!` leaves the 32-bit result in eax and touches neither stack nor memory |
| Operators.BinRuns | bin/cupidc_parse.c:675-835 | For all 18 binary operators the code, with the operands in ebx and eax, leaves the wrapped, signed or 0/1 result the language defines, unless the division traps |
| Frames.ScopeLaid | bin/cupidc_parse.c:3008-3022 | After any statement the slots of live variables are pairwise disjoint and inside every zone that reaches down to the deepest offset |
| FrameAlloc.LocalsApart | bin/cupidc_parse.c:2211-2348 | For every sequence of scalar, array, two-dimensional and struct declarations in nested scopes, the slots alive at any time are disjoint and inside the 16-byte aligned frame patched in at the end |
| Frames.StmtWritesInside | bin/cupidc_parse.c:2211-2348 | What a statement can write lies in the function's own frame and parameters |
| Frames.DeepIs | bin/cupidc_parse.c:3028-3165 | The stack that bounds a run is the fuel times the largest activation of the program |
| ExprCorrect.ReverseRuns | bin/cupidc_parse.c:868-902 | The exchange loop reverses the argument words on the stack for every count below 32 and changes nothing above them |
| ExprCorrect.PopsExactly | bin/cupidc_parse.c:134-140 | Removing the arguments restores esp if and only if there are fewer than 32 |
| ExprCorrect.PopsTooLittle | bin/cupidc_parse.c:134-140 | After a call with 32 arguments esp is 256 too low |
| ExprCorrect.CallRuns | bin/cupidc_parse.c:847-967 | A call leaves the callee's result in eax: the callee found argument k at [ebp+8+4k], and esp, ebp and the caller's memory are as before |
| ExprCorrect.ExprRuns | bin/cupidc_parse.c:1036-1503 | The code of any expression runs exactly to its end with the value in eax, esp and ebp restored, variables as the source has them, and at or above esp only the bytes the expression may write changed; it can stop early only if the stack has less room than stated |
| Effects.CallFreeEval | bin/cupidc_parse.c:1446-1503 | Expressions without calls have the same value for every amount of fuel |
| Effects.CallFreeRuns | bin/cupidc_parse.c:1446-1503 | With NeedE(e) bytes of stack a call-free expression cannot run out: it ends at its end, and of the memory at or above esp only variables it bumps changed |
| StmtCorrect.DeclRuns | bin/cupidc_parse.c:2340-2362 | A declaration leaves the initial value, or 0, in the new slot and all other variables alone |
| StmtCorrect.AssignRuns | bin/cupidc_parse.c:1582-1616 | Assignments, also compound ones, change that variable only, to the value the source gives it |
| StmtCorrect.IfElseRuns | bin/cupidc_parse.c:2364-2384 | Exactly the branch that the source takes runs, and both end behind the statement |
| StmtCorrect.WhileRuns | bin/cupidc_parse.c:2386-2421 | A while loop simulates the source for any number of rounds; break and continue land behind and at the head of the loop |
| StmtCorrect.ForRuns | bin/cupidc_parse.c:2423-2551 | The same for for loops, whose step stands before the body: continue lands on the step |
| StmtCorrect.ReturnRuns | bin/cupidc_parse.c:2553-2561 | Return leaves through the saved frame pointer and return address with the value in eax |
| StmtCorrect.BlockRuns | bin/cupidc_parse.c:3008-3022 | A block runs its statements and drops its variables, with esp balanced |
| StmtCorrect.StmtRuns | bin/cupidc_parse.c:2563-3006 | Any nesting of statements ends where the source does (next statement, break, continue or return), with the same variables and a balanced stack |
| Effects.ScalarsS | bin/cupidc_parse.c:1582-1616 | At or above the locals of the scope it starts in, a statement writes only scalars of that scope |
| Effects.StmtRunsExactly | bin/cupidc_parse.c:2563-3006 | With enough stack a statement cannot run out, and of the memory of the enclosing scopes, arrays included, only scalars changed |
| ProgramCorrect.CompiledCallReturns | bin/cupidc_parse.c:3028-3165 | Calling any function of a compiled program returns to the return address with the source's result, esp above it, ebp restored, and memory above the arguments unchanged; with room for fuel + 1 activations the stack cannot run out |
| ParseExprs.FullParses | bin/cupidc_parse.c:1446-1503 | Parsing an expression printed with only the parentheses it needs emits the code of that same tree, calls and the right-associative conditional included; which operators need parentheses is fixed by `ParseChains` |
| ParseChains.ChainParses | bin/cupidc_parse.c:633-668 | A chain a op1 b op2 c ... of any length and of any operands emits the code of the tree that splits at the last operator of the lowest of ten levels, which are listed operator by operator |
| ParseChains.ChainTernary | bin/cupidc_parse.c:1446-1503 | Before `?`, a chain is the condition as a whole: every binary operator binds more tightly |
| ParseChains.PairParses | bin/cupidc_parse.c:633-668 | a op b op1 c groups to the right if op1 stands in a higher level of the list, and to the left if it stands in a lower one or the same |
| ParseChains.LevelsCover | bin/cupidc_parse.c:633-668 | Any two operators are in one of these three cases |
| ParseChains.ClimbGroups | bin/cupidc_parse.c:1446-1503 | Climbing by precedence takes the operators it reaches and builds that tree of them |
| ParseStmts.FillBreaks | bin/cupidc_parse.c:2411-2420 | Patching the recorded break sites turns the unfinished loop body into its final code and disturbs nothing else |
| ParseStmts.StmtParses | bin/cupidc_parse.c:2563-3006 | Parsing a printed statement emits its code, with every jump already patched and only calls left open |
| CallSites.FillF | bin/cupidc_parse.c:3562-3580 | Patching the recorded call sites of a function gives its code with all entries known, and no patch touches another site |
| ParsePrograms.ParseCompiles | bin/cupidc_parse.c:3171-3595 | Parsing the text of a program succeeds and ends with exactly its compiled bytes, calls to later functions included; locals and parameters may hide functions |
| ParsePrograms.ParsedCallReturns | bin/cupidc_parse.c:3171-3595 | From text to run: calling a function in the bytes emitted for the text of a program returns what the program means |
| OnePass.Compiler.Next | bin/cupidc_lex.c:196-202 | Taking a token, looked at before or not, removes exactly one from what is left to read |
| OnePass.Compiler.Peek | bin/cupidc_lex.c:637-647 | Looking ahead loses and repeats no token |
| OnePass.Compiler.Emit8 | bin/cupidc_parse.c:25-31 | One byte is appended to the code buffer, or the full buffer is an error |
| OnePass.Compiler.Patch32 | bin/cupidc_parse.c:42-49 | Four bytes of the buffer are overwritten in place, no others |
| OnePass.Compiler.EmitCall | bin/cupidc_parse.c:910-960 | Known functions are called, unknown ones get a symbol and a patch record, variables are an error |
| OnePass.Compiler.ParseExpr | bin/cupidc_parse.c:1446-1503 | Precedence climbing on the mutable state equals the parser function, whose grouping `ParseChains.ChainParses` states |
| OnePass.Compiler.ParseIf | bin/cupidc_parse.c:2364-2384 | The same for if and else with their back-patched jumps |
| OnePass.Compiler.ParseWhile | bin/cupidc_parse.c:2386-2421 | The same for while with its stack of open loops and break sites |
| OnePass.Compiler.ParseFor | bin/cupidc_parse.c:2423-2551 | The same for for |
| OnePass.Compiler.ParseBlock | bin/cupidc_parse.c:3008-3022 | The same for blocks, which cut the symbol table back |
| OnePass.Compiler.ParseFunction | bin/cupidc_parse.c:3028-3165 | The same for functions, whose frame size is patched in after the body |
| OnePass.Compiler.Resolve | bin/cupidc_parse.c:3562-3595 | The same for the final loop over the patch table |
| OnePass.CompileText | bin/cupidc_parse.c:3171-3595 | The mutable one-pass compiler, run on the printed text of a program, leaves the compiled program in its buffer |
| FatDisk.Regions | bin/fat16.c:179-183 | FAT copies, root directory and clusters lie one after the other inside the partition |
| FatDisk.FatApart | bin/fat16.c:513-546 | Different copies and different sectors of a copy never share a sector |
| FatDisk.ClustersApart | bin/fat16.c:66-71 | Different clusters never share a sector |
| FatLayout.TableAt | bin/fat16.c:41-58 | Entry c of copy k of the table is the two bytes at 512 * (first sector of the copy) + 2c, the low one first |
| FatLayout.SlotAt | bin/fat16.h:60-74 | Directory slot i starts 32i bytes into the root directory: name at 0, attributes at 11, first cluster at 26, size at 28, low bytes first |
| FatLayout.ClusterAt | bin/fat16.c:66-71 | Cluster 2 starts right behind the root directory, and the bytes of the clusters follow one another |
| FatLayout.DirectoryAt | bin/fat16.c:1175-1197 | The bytes of a new directory: an entry for itself, one for the root, and zeros |
| FatLayout.FoundExactly | bin/fat16.c:316-364 | The search finds the first file of that name before the end of the directory, and nothing exactly if there is none |
| FatLayout.PlacedExactly | bin/fat16.c:845-979 | A name goes to the first slot that carries it, else to the first vacant slot, and nowhere exactly if all slots are in use |
| FatLayout.ClustersLeast | bin/fat16.c:624-629 | A file takes the least number of clusters that hold it |
| FatDriver.Driver.ReadEntry | bin/fat16.c:41-58 | Reading a table entry from the bytes gives the entry of the abstract table |
| FatDriver.Driver.WriteEntry | bin/fat16.c:513-546 | Writing an entry changes that entry of the abstract table only and keeps all copies identical |
| FatDriver.Driver.AllocCluster | bin/fat16.c:556-576 | The first free cluster is taken and marked, or 0 is returned exactly when there is none |
| FatTable.FreedClears | bin/fat16.c:586-593 | On every table whose links stay inside it, cyclic or cross-linked ones included, freeing stops, sets entries to free and nothing else, and frees whatever a freed entry linked to |
| FatTable.FreedChain | bin/fat16.c:586-593 | Freeing a chain frees exactly its clusters |
| FatDriver.Driver.FreeChain | bin/fat16.c:586-593 | The loop on the sectors frees what the abstract function frees, on every table whose links stay inside it |
| FatLoose.LooseClears | bin/fat16.c:586-593 | On any contents of the disk, links past the end of the table included, freeing only ever sets entries to free |
| FatLoose.FreeAny | bin/fat16.c:586-593 | The loop on the sectors stops on any contents of the disk and does what the function on halfwords says, in every copy |
| FatNames.Convert | bin/fat16.c:81-120 | The in-place conversion fills in the 8.3 name, which the following rows describe |
| FatNames.DottedForm | bin/fat16.c:81-120 | The 8.3 name of base.ext is the capitals of the base, cut or filled with spaces to 8 bytes, and those of the extension, cut or filled to 3 |
| FatNames.PlainForm | bin/fat16.c:81-120 | A name without a dot has three spaces for its extension |
| FatNames.UpperCapital | bin/fat16.c:92-96 | Each small letter becomes its capital, as the two alphabets are listed, and every other byte stays |
| FatNames.NoSmallLetters | bin/fat16.c:81-120 | No byte of an 8.3 name is a small letter |
| FatNames.SameName | bin/fat16.c:81-120 | Two names have the same 8.3 form if and only if the first 8 bytes of their bases and the first 3 of their extensions, without spaces at the end, agree up to case |
| FatNames.ShortName | bin/fat16.c:81-120 | For short parts that do not end in a space: if and only if base and extension agree up to case |
| FatNames.ProperNames | bin/fat16.c:81-120 | The 8.3 name of a text is usable if and only if the text does not start with the deleted mark |
| FatFiles.WriteFails | bin/fat16.c:636-643 | A write fails if and only if clusters or directory slots do not suffice, and then leaves table, directory and all used clusters as they were |
| FatFiles.WriteValid | bin/fat16.c:606-979 | A write keeps the volume consistent: chains acyclic, disjoint, ended, of the right length, and every used cluster on exactly one of them |
| FatFiles.DeleteValid | bin/fat16.c:1031-1074 | So does a deletion |
| FatFiles.MkdirValid | bin/fat16.c:1120-1224 | So does making a directory |
| FatFiles.WriteValidExactly | bin/fat16.c:606-979 | After a write the volume is consistent if and only if the name does not start with one of the two marks |
| FatFiles.MkdirValidExactly | bin/fat16.c:1120-1224 | The same for making a directory |
| FatFiles.WriteHolds | bin/fat16.c:606-979 | After a successful write the slot's chain holds exactly the bytes written |
| FatFiles.WriteKeeps | bin/fat16.c:606-979 | The bytes reached through every other occupied slot are unchanged |
| FatFiles.DeleteMakesRoom | bin/fat16.c:1057-1069 | After a file is deleted, a file of its size can be written under its name |
| FatFiles.CloseAllOrNothing | bin/fat16_vfs.c:215-258 | Whatever the file held, and with or without a backup: after delete, write and rollback it holds the new bytes if they fit, else the old ones if they were backed up (the rollback cannot fail), and else table and directory are those after the deletion |
| FatFiles.CloseKeeps | bin/fat16_vfs.c:215-258 | Through all of that, with any backup or none, every other file and every directory keeps its bytes |
| FatFiles.ApplyConsistent | bin/fat16.c:606-1224 | Every operation takes consistent volumes to consistent ones |
| FatFiles.Run | bin/fat16.c:606-1224 | So does every sequence of writes, deletions and directories |
| FatDriver.Driver.WriteFile | bin/fat16.c:606-979 | The driver's write on sectors is the write on the volume, with all copies of the table kept identical; -1 exactly if it fails |
| FatDriver.Driver.DeleteFile | bin/fat16.c:1031-1074 | The same for deletion |
| FatDriver.Driver.Mkdir | bin/fat16.c:1120-1224 | The same for directories, with their two dot entries |
| FatDriver.Driver.Open | bin/fat16.c:316-364 | Opening succeeds if and only if the file exists and a descriptor is free, and takes the first free one |
| FatDriver.Driver.Read | bin/fat16.c:377-484 | A read returns the next bytes of the chain's content and advances the position by as many |
| FatReads.ReadExactly | bin/fat16.c:377-484 | A read stops at the end of the file if and only if position and count stay below 2^32, or the wrapped sum lies past the end, or the last cluster is full; otherwise it returns bytes past the end |
| FatReads.ReadPastEnd | bin/fat16.c:377-484 | A one-byte file on which a second read returns padding |
| FatReads.ReadsJoin | bin/fat16.c:377-484 | Reads of any sizes return consecutive pieces that join to the file up to the total asked for, if and only if each of them is exact at the position it starts from |
| FatReads.SmallCounts | bin/fat16.c:377-484 | All reads are exact if no size reaches 2^32 from the end of the file |
| FatReads.WriteReadBack | bin/fat16.c:606-979 | Writing, opening and reading in pieces of any sizes gives back the bytes written, if and only if every read is exact |
| FatRuns.RunAll | bin/fat16.c:606-1224 | A run of requests on the driver's sectors is the run on the volume, and ends consistent |
| FatRuns.ReadPieces | bin/fat16.c:377-484 | A run of reads of any sizes on a descriptor returns those pieces, up to the first that goes past the end |
| FatRuns.WriteAndReadBack | bin/fat16.c:606-979 | On the driver: what is written, opened and read in pieces of any sizes is what comes back, if and only if every read is exact |
| FatVfs.Handle.Write | bin/fat16_vfs.c:278-310 | Written bytes are appended to the buffer, which grows as needed and loses nothing; without memory nothing changes |
| FatVfs.Handle.Seek | bin/fat16_vfs.c:312-329 | The position moves to the target, added up in 32 bits and cut to the file, for all three origins |
| FatVfs.SeekExactly | bin/fat16_vfs.c:312-329 | In files below 2 GB that is the true target cut to the file if and only if the target is below 2^31 or the file is empty |
| FatVfs.SeekWraps | bin/fat16_vfs.c:312-329 | A seek to 2^31 in a one-byte file leads to its start |
| FatVfs.Handle.Close | bin/fat16_vfs.c:209-266 | Closing a handle does on the driver what it does on the volume, and frees the descriptor |
| FatVfs.CloseOutcome | bin/fat16_vfs.c:209-266 | A dirty handle on any file, empty or not, with or without memory for a backup, leaves all that was written to it if that fits; else what the file held, if that was not empty and was backed up; else no file |
| FatVfs.WriteAll | bin/fat16_vfs.c:278-310 | A sequence of writes leaves their concatenation in the buffer, less those for which there was no memory |
| FatVfs.WriteAndClose | bin/fat16_vfs.c:209-310 | Any sequence of writes and the close: the file holds the concatenation of what was accepted, with the outcomes above |
| FatOpen.OpenFile | bin/fat16_vfs.c:149-207 | Opening, with or without creating and truncating, does on the driver what it does on the volume and takes one free descriptor |
| FatOpen.CreateOpens | bin/fat16_vfs.c:149-173 | With a descriptor left, opening with O_CREAT succeeds if and only if the file exists or the directory has a slot; the file then holds what it held, or nothing if it is new or truncated |
| FatOpen.OpenKeepsExactly | bin/fat16_vfs.c:149-160 | Opening with O_CREAT keeps what a file holds if and only if a descriptor is left or the file is empty |
| FatOpen.OpenErases | bin/fat16_vfs.c:149-160 | A file that is erased by opening it |
| FatOpen.SaveFile | bin/fat16_vfs.c:104-310 | A whole session, opening or creating a file, writing to it any number of times and closing it, leaves the file holding all that was accepted, if it fits |
| FatOpen.LostFile | bin/fat16_vfs.c:254-256 | A file that is gone after its close |
| EdRegex.Sound | bin/ed.cc:213-239 | If the matcher says yes, some prefix of the text splits into parts that match the items of the pattern, and reaches the end if the pattern asks for it |
| EdRegex.Complete | bin/ed.cc:213-239 | If there is such a prefix, the matcher says yes |
| EdRegex.MatchHere | bin/ed.cc:213-239 | The loop with its recursion on stars stops and decides exactly that |
| EdRegex.Search | bin/ed.cc:242-254 | The least position at which the pattern matches, or -1 if and only if there is none |
| EdRegex.CharsMatch | bin/ed.cc:213-239 | A pattern without stars and dollars matches the texts that begin with its characters, with a final `$` those that consist of them; `.` stands for any one character |
| EdRegex.LiteralMatches | bin/ed.cc:213-239 | A literal matches the texts that begin with it, and with `$` exactly itself |
| EdRegex.StarMatchesSome | bin/ed.cc:216-227 | c* and a rest match if and only if the rest matches behind some number of c, or behind any text for `.*` |
| EdLines.MarksFollow | bin/ed.cc:120-145 | Insertion and deletion keep every mark on its line, and the mark of a deleted line is lost |
| EdLines.MovedMarks | bin/ed.cc:1264-1313 | After moving different lines, a mark shows the line it did if and only if no line moved past it |
| EdLines.LostMark | bin/ed.cc:1264-1313 | A mark that is left on another line |
| EdLines.MovedLines | bin/ed.cc:1264-1313 | Moving loses and doubles no line, and keeps the order inside and outside the block |
| EdLines.UndoRestores | bin/ed.cc:162-209 | Undo after any command restores the current line, and the text if and only if every line could be copied; undoing twice changes nothing |
| EdLines.UndoLoses | bin/ed.cc:162-182 | A text that undo does not bring back |
| EdLines.Editor.InsertLine | bin/ed.cc:104-127 | Shifting pointers and marks inserts the line; a full buffer or no memory changes nothing; no buffer is shared or lost |
| EdLines.Editor.DeleteLine | bin/ed.cc:129-146 | The same for deletion, which frees exactly one buffer |
| EdLines.Editor.ReplaceLine | bin/ed.cc:148-159 | The same for replacement |
| EdLines.Editor.MoveLines | bin/ed.cc:1279-1311 | The four in-place loops move the block |
| EdLines.Editor.SaveUndo | bin/ed.cc:162-182 | The old undo buffers are freed once each, the text is copied as far as memory allows |
| EdLines.Editor.RestoreUndo | bin/ed.cc:184-209 | Text and saved text change places |
| EdLines.Editor.Perform | bin/ed.cc:1264-1313 | A command, saving and then any edits, does on the arrays what it does on the text |
| EdLines.Editor.RunSession | bin/ed.cc:104-209 | So does a session of commands and undos, with every live buffer in exactly one slot throughout |
| EdLines.Editor.PerformAndUndo | bin/ed.cc:184-209 | Undo after a command on the arrays restores the text if and only if every line could be copied; a second undo brings the command back |
| PpText.RenderCopies | bin/cupidc.c:1438-1508 | Strings, comments and whatever else is not a word in code are copied, whatever the macros are |
| PpText.Verbatim | bin/cupidc.c:1438-1508 | A string or comment in a line appears unchanged between the expansions of what surrounds it |
| PpWords.WordReplaced | bin/cupidc.c:1483-1503 | Wherever the name of a macro stands as a whole word in code, its value stands in the expanded line, between the expansions of what surrounds it |
| PpWords.WordKept | bin/cupidc.c:1483-1503 | A word that is no macro stays |
| PpWords.PlainCode | bin/cupidc.c:1438-1508 | Behind a text without quotes and slashes that does not end in a word, a word is in code |
| PpWords.LiteralCopied | bin/cupidc.c:1467-1481 | A literal in quotes, with its escapes, is copied, and code goes on behind it |
| PpWords.LineCommentCopied | bin/cupidc.c:1454-1457 | From `//` on a line is copied |
| PpWords.BlockCopied | bin/cupidc.c:1442-1465 | A block comment is copied up to its `*/`, and code goes on behind it |
| PpWords.DefineParses | bin/cupidc.c:1555-1593 | A line `#define name value`, with any blanks between its parts, defines that name and value, cut to 95 and 255 characters |
| PpWords.IfParses | bin/cupidc.c:1596-1616 | So do `#ifdef name` and `#ifndef name` ask for that name |
| PpWords.EndsParse | bin/cupidc.c:1618-1637 | and `#else` and `#endif` are recognised |
| PpWords.IncludeParses | bin/cupidc.c:1533-1553 | and `#include "path"` names that path if it has fewer than 256 characters, and is an error otherwise |
| PpWords.IncludeResolves | bin/cupidc.c:1408-1436 | The file lies in the directory of the including one, unless the path starts with a slash |
| PpWords.DefineSteps | bin/cupidc.c:1555-1593 | After a definition that counts, the name means the value, whatever it meant before |
| PpWords.StepsKeep | bin/cupidc.c:1654-1675 | Lines that do not define the name leave its meaning |
| PpWords.DefineThenUse | bin/cupidc.c:1483-1593 | After a definition and any such lines, a line that counts comes out with the value in the place of the name |
| PpWords.SecondWins | bin/cupidc.c:1391-1406 | A second definition of a name wins over the first |
| PpPass.Preprocessor.ExpandLine | bin/cupidc.c:1438-1508 | The scanning loops expand exactly the words that the automaton finds in code, across lines with an open block comment; `PpWords` says what that is for each kind of text |
| PpPass.Preprocessor.HandleDirective | bin/cupidc.c:1512-1638 | Any directive line, scanned character by character, changes macros and the stack of flags as the directive says, or is replaced by the file it includes |
| PpPass.Preprocessor.HandleInclude | bin/cupidc.c:1533-1553 | An include is ignored where the code is not active or there is no quote, an error if the path does not end, and otherwise followed |
| PpPass.ResolvePath | bin/cupidc.c:1408-1436 | The path of an included file is relative to the directory of the including one, cut to 255 characters |
| PpTree.NodeRuns | bin/cupidc.c:1595-1637 | One pass over the lines of nested conditionals computes what the blocks mean: a line or macro counts exactly if all blocks around it are selected, and nesting beyond 32 is an error |
| PpTree.ReadAll | bin/cupidc.c:1595-1637 | Conversely, every run that succeeds and leaves no conditional open has read the lines of such blocks |
| PpTree.RunLines | bin/cupidc.c:1654-1675 | Without an error the output has one newline for each newline of the input |
| PpPass.Preprocessor.ProcessText | bin/cupidc.c:1654-1677 | The loop over the text of a file is the fold over its lines, included files in their place |
| PpPass.Preprocessor.ProcessFile | bin/cupidc.c:1640-1678 | Files are nested nine deep at most; a file that cannot be read is an error |
| PpFiles.SelfInclude | bin/cupidc.c:1640-1647 | A file that includes itself is an error |
| PpPass.Preprocessor.Preprocess | bin/cupidc.c:1680-1714 | The result, for all files and includes, is the output, or nothing if there was an error or a conditional was left open |
| PpFiles.PreprocessesBlocks | bin/cupidc.c:1680-1714 | A file of which no include is followed is preprocessed to an output if and only if its lines are nested blocks that mean this output |
| PpFiles.PreprocessKeepsLines | bin/cupidc.c:1680-1714 | If no include is followed, the output has exactly the newlines of the text |
| FixedPoint.LongDivision | bin/cupidc.c:310-318 | The binary digits found so far and the remainder make up the shifted dividend |
| FixedPoint.Div | bin/cupidc.c:288-322 | The result is the quotient truncated toward zero if and only if `Exact` holds; dividing by zero gives zero |
| FixedPoint.RestIs | bin/cupidc.c:310-318 | The remainders that must stay below 2^30 are r, 2r, 4r, ... modulo the divisor |
| FixedPoint.ExactBelow | bin/cupidc.c:288-322 | Division is exact for all divisors up to 2^30 whose quotient fits |
| FixedPoint.DivFails | bin/cupidc.c:288-322 | A quotient that fits and is not returned |
| FixedPoint.MulUndoesDiv | bin/cupidc.c:283-286 | Multiplying back falls short by at least 0 and less than b / 65536 + 1 |
| FixedPoint.MulFloor | bin/cupidc.c:283-286 | For all signs the product is the exact one rounded down, modulo 2^32, and the exact one rounded down if and only if that fits |
| SshBytes.Increment | bin/ssh.cc:163-171 | The carry loop adds one to the big-endian counter |
| SshBytes.IncrTo | bin/ssh.cc:163-171 | Adding one to the bytes of a count gives the bytes of the next, modulo 2^64 |
| SshPackets.NoncesDiffer | bin/ssh.cc:325-329 | Within 2^64 packets no nonce repeats |
| SshPackets.PadRules | bin/ssh.cc:335-336 | At least four bytes of padding, and alignment to eight |
| SshPackets.PacketArrives | bin/ssh.cc:331-449 | A packet that was sent, in clear or sealed, is received as it was exactly if it has a byte and fits the receiver's limit; what follows stays in the stream |
| SshPackets.TooLong | bin/ssh.cc:396-397 | A payload that is sent and refused |
| SshPackets.AllArrive | bin/ssh.cc:331-449 | For any messages, with keys changed at the same packets, the receiver gets the payloads in order and both ends count the same |
| SshFormat.PlainBytes | bin/ssh.cc:366-379 | A packet in clear is length, length of the padding, payload and padding, each at its place |
| SshFormat.SealedBytes | bin/ssh.cc:333-366 | In a sealed packet block 0 of the header key hides the length, block 1 of the main key on hides the rest, and 16 bytes behind them are the MAC of all these bytes under the first 64 bytes of the main stream at block 0 |
| SshFormat.TagKey | bin/ssh.cc:352-363 | With a MAC that returns its key, the tag on the wire is the main stream at block 0 |
| SshFormat.TagHeader | bin/ssh.cc:352-363 | If the sealed bytes are the same, the tag does not change with the header key |
| SshFormat.AcceptedExactly | bin/ssh.cc:388-426 | A sealed packet is accepted if and only if the length it hides is between 5 and 32768, all of it is there, the tag is that MAC and a payload is left, which is then what the main stream hid |
| SshFormat.NonceBytes | bin/ssh.cc:325-329 | The nonce is four zeros and the count of packets, its highest byte first |
| SshFormat.MixedBits | bin/ssh.cc:350-358 | Hiding a byte is exclusive or, bit by bit |
| SshFormat.Limits | bin/ssh.cc:335-368 | The largest payloads that are sent and accepted, in clear and sealed |
| SshWire.Sender.Send | bin/ssh.cc:331-383 | The packet built and encrypted in place in the buffer is the packet, whose bytes `SshFormat.SealedBytes` lists, and the counter advances by one |
| SshWire.Receiver.Recv | bin/ssh.cc:388-449 | Reading, checking and decrypting in place gives the payload, the end of the stream or a broken packet, which `SshFormat.AcceptedExactly` tells apart, and only the first advances the counter |
| SshWire.Exchange | bin/ssh.cc:331-449 | A whole run between two ends delivers the payloads, and both counters hold the number of packets modulo 2^64 |
| Chunked.Decode | bin/ctxt.cc:495-533 | The nested loops write what `Out` says, never more than `max` bytes; on messages as they are sent that is their data, by `ChunkDigits.TextOut` |
| Chunked.OutExactly | bin/ctxt.cc:495-533 | The output is the first `max` bytes of the body if and only if at every size line reached the end of the chunk is below 2^31 or the message fills the output |
| Chunked.SmallSizesSafe | bin/ctxt.cc:517-518 | That condition holds for every message whose sizes cannot reach 2^31 from its end |
| Chunked.WrappedSize | bin/ctxt.cc:517-518 | A ten-byte message on which the output is filled from behind the message |
| Chunked.StreamDecodes | bin/ctxt.cc:495-533 | The body of an encoded stream is what was sent, for every split into chunks, with any extensions |
| Chunked.TruncationDecodes | bin/ctxt.cc:495-533 | The body of a stream cut anywhere is a prefix of what was sent |
| Chunked.StreamOut | bin/ctxt.cc:495-533 | Decoding a complete stream in memory writes the first `max` bytes sent, whatever the chunk sizes |
| Chunked.CutStreamOut | bin/ctxt.cc:495-533 | Decoding a stream cut anywhere writes the first `max` bytes of a prefix of what was sent, if no size reaches 2^31 from the end of the message |
| Chunked.CutSmallChunks | bin/ctxt.cc:495-533 | That is so for chunks below 2^28 bytes in messages up to 0x70000000 |
| ChunkDigits.DigitReads | bin/ctxt.cc:502-506 | The digit at place d of 0123456789abcdef or 0123456789ABCDEF is read as d |
| ChunkDigits.HexIs | bin/ctxt.cc:502-512 | and no other byte counts as a digit |
| ChunkDigits.SizeOf | bin/ctxt.cc:499-512 | A number written in these digits, in any mix of cases and with any leading zeros, is read modulo 2^32 as a signed number, so below 2^31 as it is |
| ChunkDigits.TextDecodes | bin/ctxt.cc:495-533 | The body of a message whose sizes are so written is the data of its chunks |
| ChunkDigits.TextOut | bin/ctxt.cc:495-533 | Decoding such a message in memory writes the first `max` bytes of this data |

## Left out

- The rest of CupidC: pointers, structs in expressions, globals, strings, characters, `switch`, `do`, inline assembly, casts, kernel bindings, and for headers that start with other than a declaration or an assignment. The parser of the model reports these as outside the model, so the theorems say nothing about them.
- Character-level lexing: the compiler reads a sequence of tokens.
- Calls with 32 or more arguments in `ExprCorrect.ExprRuns`: esp is wrong after them, as `ExprCorrect.PopsExactly` shows.
- Programs of more than 1 MB of code, and functions whose locals take half the address space.
- FrameAlloc.LocalsApart: sizes are unbounded, so it does not model declarations whose size overflows 32 bits.
- Subdirectory paths in FAT16: `RootName` excludes names with a slash behind the first character, which the source sends to another branch.
- FatDriver.Driver.WriteFile: does not model errors of the block cache, sizes of 2^31 bytes or more, or the checks the source makes of its own work (chain length, bytes written), which cannot fail without such errors.
- FatDriver.Driver.Open: names are compared as sequences; the search loops that the source repeats for each operation are written once.
- Reading through a descriptor is stated for a chain that backs the file; `FatReads.WriteReadBack` shows that such a chain exists after a write.
- `fat16_init`, the partition table, volume labels and listing directories: they would only add easy members.
- FatVfs.Handle.Close: memory for the backup is a parameter.
- FatOpen.OpenFile: handles on directories, and a handle that cannot be allocated, are not modelled.
- FatOpen.SaveFile: names whose 8.3 form changes when a handle cuts them to 63 characters, and files of 2^31 bytes or more.
- The rest of `ed`: addresses, substitution, `g`, `v` and `t`, and the end of a match. Addresses reach the editor class already checked.
- EdLines.Editor.MoveLines: the destination is at most the last line.
- Reading source files: what a path leads to is a parameter. Texts end at their first zero byte.
- Cryptography: the stream cipher and the MAC are arbitrary functions, so nothing is said about secrecy or forgery. Sockets are a sequence of bytes that ends.
- SshWire.Sender.Send: the random padding is a parameter.
- Chunked.Decode: message and output together take less than 2 GB; the memory around the message is a function from positions to bytes.
- GUI programs, the kernel, drivers and the remaining utilities.
