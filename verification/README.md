# Verified models of the engines inside csh, dd and ed

Several of the old Unix tools in this repository hide a small engine that works by pointer surgery or
by shifting bytes in a buffer, and that has a simple meaning. This project models eight of them in
Dafny, branch by branch, and proves that they have that meaning:

* **csh variables** (`csh_names`, `csh_var_tree`, `csh_var_store`, `csh_vars`): an AVL tree with parent
  links under a header node. Insertion and deletion share one rebalancing loop; the table refines a
  finite map, and listing it needs no stack.
* **dd** (`dd_meaning`, `dd_device`, `dd_stream`, `dd_laws`): a converter between reads of any size and
  output blocks of a fixed size, with writes that may be short. What it writes depends on the concatenated
  input only, and only an error, or a short write to a tape, ends it early.
* **ed's line buffer** (`ed_links`, `ed_buffer`, `ed_active`, `ed_global`): a ring of lines with a cached
  position in it, undo by relinking in place (undoing twice changes nothing), the list of lines that a
  global command still has to visit, and editing the ring during such a command.
* **ed's encrypted files** (`ed_cipher`, `ed_cipher_laws`): cipher block chaining (section 6.2 of
  NIST SP 800-38A) over any permutation of 8-byte blocks, behind a one-block buffer.
* **csh's command parser** (`csh_syntax`, `csh_parser`, `csh_groups`, `csh_printing`, `csh_roundtrip`,
  `csh_overrun`, `csh_errors`): recursive descent over a range of words, with a two-pass argument vector.
* **csh's brace expansion** (`csh_braces`, `csh_expbrace`, `csh_brace_meaning`, `csh_brace_errors`): a
  worklist that rewrites the array it runs over.
* **csh's job table** (`csh_jobs`, `csh_job_table`, `csh_job_outcomes`): process records in rings, with
  indices and pointers to the current and the previous job, changed by forks, reported statuses, starts
  and flushes.
* **csh's paths, expressions and command hash** (`csh_canon`, `csh_canon_laws`; `csh_numbers`,
  `csh_number_text`, `csh_expr`, `csh_expr_tree`, `csh_arith`; `csh_hash`, `csh_hash_laws`).

Code that changes things in place is modelled by classes and arrays whose methods are proved against
functions on values; the laws are then proved about those functions, and say what they give in terms of
the inputs. Recursive code that only computes is modelled by functions.

How the outside world enters: reads, short writes and interrupted writes of dd are two given sequences
of answers; a forked process has a fresh pid and a reported status is a parameter; the block cipher is
any pair of functions that undo each other; file inquiries, globbing and pattern matching are given
functions.

## What turned out not to hold

* `block` does not translate a last line that has no newline. `DdMeaning.BlockMeaning` says exactly when
  that makes a difference, `DdMeaning.BlockLeavesLastLineUntranslated` shows an input.
* `unblock` does not undo `block` for every input; `DdMeaning.UnblockUndoesBlock` says for exactly which,
  and `DdMeaning.TrailingBlankIsLost` shows a line that does not come back.
* The parser can leave the words it was given, and then walks on around its circular word list. Whether it
  does can be told from the words alone: `CshOverrun.AstrayIff` says that it does if and only if
  `CshOverrun.Strays` holds of them. That predicate cuts the words at the separators outside parentheses, and
  asks whether one of the commands, not a keyword's, loses more closing than opening parentheses as the
  file names of its redirections; a list behind the last `&` counts only if its parentheses match. So it
  never happens if no closing parenthesis comes before its opening one (`CshOverrun.BalancedStays`), with
  errors or without. The words `x > ) ( b` have one that does, and make the parser leave its range
  (`CshGroups.GroupLeftOpen`, `CshOverrun.GroupLeftOpenStrays`); the words `) (` have one too, and do no
  harm (`CshOverrun.StrayStays`).
* Brace expansion is the product of the alternatives unless a word comes down to `{}` on the way, which
  is left alone. `CshBraceMeaning.ExpansionIsProduct` gives the exact condition, and
  `CshBraceMeaning.NestedPairIsLeft` the words `{{},c}` that break it.
* A second redirection of the output replaces the first one without an error (`CshErrors.OutputTwice`), while
  a second one of the input is an error (`CshErrors.InputTwice`); and in front of a bar that takes the
  errors too, one redirection of the output is let through (`CshErrors.OutputInPipe`).
* `dcanon` is not the stack rule in one case: a last `.` directly under the root stays, so `/.` can come
  out (`CshCanon.CanonTwice` says when).
* `dcanon` looks one character past the end of the path (`bin/csh/dir.c:681`), behind the empty last
  component, exactly if the path ends in a slash, the root itself included: that is the result of
  `CshCanon.Dcanon`, and `CshCanon.TrailingSlash` a path for which it does. The model ends the component
  there.

## Model

| member | source | states |
|---|---|---|
| CshNames.Strcmp | bin/csh/str.c:283-302 | the loop finds the first differing position and gives the sign of the characters' difference there, for signed characters |
| CshNames.FirstDifference | bin/csh/str.c:283-302 | behind a common prefix the comparison is -1 or 1 where one string ends, lower for the shorter, and otherwise the difference of the two characters |
| CshNames.NameOrder | bin/csh/set.c:461-465 | the empty name comes before names that begin with a positive character and behind those that begin with a negative one |
| CshNames.CompareTotalOrder | bin/csh/set.c:461-465 | the first-character-then-Strcmp comparison is 0 for equal names only, and swapping the names changes its sign |
| CshNames.CompareTransitive | bin/csh/set.c:520-526 | the comparison is transitive, so the names of a tree are linearly ordered, negative characters included |
| CshVarTree.DisturbedShape | bin/csh/set.c:739-804 | a node whose one side has become one level higher or lower always has the child, and for a double rotation the grandchild, that the rotation dereferences |
| CshVarTree.FixRestores | bin/csh/set.c:739-811 | one pass of the loop leaves a balanced subtree with the same variables in the same order, and stops exactly if the subtree is as high as before the change; otherwise it is off by the same one |
| CshVarTree.FixRightHeights | bin/csh/set.c:739-771 | a single or double left rotation of a node two levels too high on the right is balanced, and lower by one exactly if its balance factor is 0 |
| CshVarTree.FixLeftHeights | bin/csh/set.c:772-804 | the same for the mirror image |
| CshVarTree.RotateLeftItems | bin/csh/set.c:691-696 | a left rotation changes neither the order of the variables nor the set of nodes |
| CshVarTree.RotateRightItems | bin/csh/set.c:685-690 | nor does a right rotation |
| CshVarTree.SplitApart | bin/csh/set.c:585-626 | in a tree in name order, removing one node removes exactly its name from the map |
| CshVarStore.RLeft | bin/csh/set.c:691-696 | the pointer code of the rotation: every child, parent and balance field is that of the rotated tree, and the new root's parent is the old one's |
| CshVarStore.RRight | bin/csh/set.c:685-690 | the same for the right rotation |
| CshVarStore.DoubleLeft | bin/csh/set.c:759-767 | the two rotations of the double case, in the heap |
| CshVarStore.DoubleRight | bin/csh/set.c:792-800 | the mirror image |
| CshVarStore.Relink | bin/csh/set.c:737-804 | the switch of the loop body turns the heap of the subtree and the link that holds it into those of the repaired tree |
| CshVarStore.Pass | bin/csh/set.c:737-811 | one turn of the loop: the subtree is balanced again, and either all that surrounds it fits its height, or the position above is off by the same one |
| CshVarStore.Balance | bin/csh/set.c:719-812 | from any position that is off by one, for insertion and deletion, the loop ends with a balanced tree whose parent links and factors are right, with the same variables in the same order |
| CshVarStore.Descend | bin/csh/set.c:463-469 | a step of the search keeps the name between the variables before and after the position |
| CshVarStore.BracketsAbsent | bin/csh/set.c:519-528 | a search that ends at an empty link has shown that no variable has the name |
| CshVars.VarTable.constructor | bin/csh/csh.h:408-423 | the table with no variable is the empty map |
| CshVars.VarTable.Adrof1 | bin/csh/set.c:456-471 | lookup finds the node that holds the value last stored under the name, and nothing exactly if the name is not in the map |
| CshVars.VarTable.Value1 | bin/csh/set.c:429-438 | the first word of the stored value, the null string for no value or no variable |
| CshVars.FirstMatchIs | bin/csh/set.c:440-454 | no name in front of the match found matches the pattern; there is none exactly if no name matches |
| CshVars.TrimmedWord | bin/csh/glob.c:554-562 | every character of a trimmed word is the one at its place without its quote bit, and the word goes on up to a character that is nothing but a quote bit |
| CshVars.TrimmedWords | bin/csh/glob.c:554-562 | a value keeps its words, each trimmed; without quote bits it is not changed |
| CshVars.Madrof | bin/csh/set.c:440-454 | the recursive search returns the first variable in name order that matches the pattern |
| CshVars.VarTable.Setq | bin/csh/set.c:510-536 | the map becomes the old one with the name bound to the trimmed value, whose words have no quote bit left; a value without quote bits is stored as it is; order, parent links and balance are kept |
| CshVars.VarTable.AddNode | bin/csh/set.c:528-533 | inserting and rebalancing where the search found nothing adds exactly the one name, with the trimmed value |
| CshVars.VarTable.Unsetv1 | bin/csh/set.c:585-626 | the map loses exactly the node's name; order, parent links and balance are kept, and one node is gone |
| CshVars.VarTable.RemoveInner | bin/csh/set.c:603-609 | for a node with two children, moving the predecessor's name and value into it and splicing the predecessor out removes the node's own name only |
| CshVars.VarTable.Predecessor | bin/csh/set.c:604-605 | the walk to the right ends at the last variable in name order below the left child, which has no right child |
| CshVars.VarTable.Unset1 | bin/csh/set.c:557-572 | exactly the names that match one of the patterns are gone, the loop ends, and the patterns reported are those that matched nothing left by the earlier ones |
| CshVars.MissingIs | bin/csh/set.c:557-572 | a pattern is reported exactly if every name it matches was matched by an earlier pattern, each pattern once and in order |
| CshVars.VarTable.UnsetMatching | bin/csh/set.c:567-570 | the inner loop removes every match of one pattern; its count is 0 exactly if nothing changed |
| CshVars.VarTable.Plist | bin/csh/set.c:814-852 | the walk by child and parent links lists every variable exactly once with its value, in strictly increasing name order, and ends |
| CshVars.VarTable.StepUp | bin/csh/set.c:846-849 | leaving a subtree by its parent link, the walk has listed just the variables before the node it comes to, and it comes to the header exactly when all are listed |
| DdMeaning.BlockMeaning | bin/dd/conv.c:117-220 | what `block` and `block_close` make of an input is its lines, each cut or padded to cbsz and translated, if and only if the table leaves a short unterminated last line alone |
| DdMeaning.BlockLeavesLastLineUntranslated | bin/dd/conv.c:202-220 | the one-byte input `a` under a table that makes capitals comes out as `a` and a space, not as `A` and a space |
| DdMeaning.BlockedMonotone | bin/dd/conv.c:150-198 | more input never takes back anything that `block` has sent |
| DdMeaning.CutLine | bin/dd/conv.c:132-144 | reading on in a line that is already cut, up to and including its newline, sends nothing |
| DdMeaning.UnblockMore | bin/dd/conv.c:229-261 | splitting the input of `unblock` anywhere, and going on with the incomplete record left over, changes nothing |
| DdMeaning.UnblockRecords | bin/dd/conv.c:245-257 | `unblock` turns the records of any lines into the lines shortened to cbsz and without trailing blanks |
| DdMeaning.UnblockUndoesBlock | bin/dd/conv.c:110-281 | without a table, `unblock` after `block` gives the input back if and only if it consists of newline-terminated lines of at most cbsz bytes without trailing blanks |
| DdMeaning.TrailingBlankIsLost | bin/dd/conv.c:110-281 | the line `a` and a blank, with cbsz 2, comes back as `a` |
| DdLaws.RecordAt | bin/dd/conv.c:150-178 | every byte of a record is that of the line at its place, or a space behind its end, as the table has it |
| DdLaws.RecordsAt | bin/dd/conv.c:150-195 | the record of the i-th line is the i-th stretch of cbsz bytes |
| DdLaws.BlockRecords | bin/dd/conv.c:117-220 | `block` and `block_close` send the records of the complete lines, and then an incomplete last line: cut and translated if it fills a record, otherwise as it is and padded |
| DdLaws.StrippedBlanks | bin/dd/conv.c:246-248 | a stripped record is the record without the blanks at its end, all of them |
| DdLaws.UnblockMeaning | bin/dd/conv.c:229-281 | for every input `unblock` and `unblock_close` send one line for every cbsz bytes, and one for what is left, each without the blanks at its end |
| DdLaws.UnblockTranslated | bin/dd/conv.c:229-281 | `unblock` translates every byte before it cuts the records |
| DdLaws.DefMeaning | bin/dd/conv.c:63-90 | without a record conversion every byte comes out at its place, as the table has it |
| DdDevice.PassMeans | bin/dd/dd.c:228-321 | the reads of a pass, answer by answer: each delivers at most the block size, the pass ends behind the limit or at the first answer that delivers nothing, and fails exactly if that one is an error |
| DdDevice.NoReadFails | bin/dd/dd.c:254-262 | without a read error among the answers no pass fails |
| DdDevice.FileByFile | bin/dd/dd.c:101-102 | of several files the first is read up to the answer that delivers nothing and the others behind it, until the block limit is reached; behind that nothing is read |
| DdDevice.LastFile | bin/dd/dd.c:228-236 | a file that nothing ends is read as far as the block limit allows |
| DdDevice.TakenMeans | bin/dd/dd.c:370-398 | of the answers to writes taken, none ends a run that goes on; the last one taken by a run that is given up is an error or, on a tape, short |
| DdStream.Dd.constructor | bin/dd/dd.c:154-163 | buffers of the sizes `setup` chooses, with nothing in them, are a valid start for every conversion |
| DdStream.Dd.FitsIn | bin/dd/dd.c:154-163 | those sizes leave room for a whole read in every state between reads |
| DdStream.Dd.Write | bin/dd/dd.c:371-380 | a write sends a prefix of what it was given, as long as its answer says: at least one byte and at most what was asked, none when interrupted, none and an error otherwise |
| DdStream.Dd.WriteBlock | bin/dd/dd.c:370-398 | a block leaves in order in as many writes as it takes; it is given up only behind an error, or a short write to a tape, and all of it has left exactly if it is not; a block that leaves in one write of obs bytes is counted as full, every other write as partial |
| DdStream.Dd.DdOut | bin/dd/dd.c:344-407 | unforced, the bytes written are a multiple of obs and fewer than obs stay, at the front of the buffer; forced, everything is written; what is written and what stays are together, in order, what was there before; only an error, or a short write to a tape, keeps it from that |
| DdStream.Dd.DoDef | bin/dd/conv.c:63-90 | in the shared buffer, every byte read is translated exactly once, whatever the fragments |
| DdStream.Dd.DoBlock | bin/dd/conv.c:117-200 | after any fragment, what has been sent is the function of all input so far, in or out of a truncation |
| DdStream.Dd.Resume | bin/dd/conv.c:132-144 | in a truncation, the bytes up to the next newline are dropped, and the rest is left unread |
| DdStream.Dd.OneRecord | bin/dd/conv.c:150-195 | a turn of the loop sends one line's record, or stops at a short line without newline and moves it to the front of the buffer |
| DdStream.Dd.LeaveLine | bin/dd/conv.c:169-191 | behind a record, the input is at the byte after the line's newline, or the truncation is remembered if the newline has not been read |
| DdStream.Dd.DoUnblock | bin/dd/conv.c:229-261 | after any fragment, what has been sent is the stripped lines of all complete records so far, and the incomplete one is at the front of the buffer |
| DdStream.Dd.StripSpaces | bin/dd/conv.c:246-248 | the scan from the right finds the record without its trailing blanks |
| DdStream.Dd.BlockClose | bin/dd/conv.c:202-220 | an unterminated last line is sent as it is, padded to cbsz |
| DdStream.Dd.UnblockClose | bin/dd/conv.c:263-281 | an incomplete last record is stripped and ended like the others |
| DdStream.Dd.Take | bin/dd/dd.c:248-318 | a read appends its bytes, at most ibs, to the input and to the buffer and disturbs nothing else |
| DdStream.Dd.DdIn | bin/dd/dd.c:228-321 | every state between reads is valid; with a block limit or without, the input has grown by just the reads up to the limit or the first answer that delivers nothing, each counted as full or partial, and the pass fails only behind a read error, a write error or a short write to a tape |
| DdStream.Dd.DdClose | bin/dd/dd.c:327-342 | after the last flush the bytes written are the conversion of the whole input; if it is given up, which only an error or a short write to a tape makes it, they are a prefix of it |
| DdStream.Dd.Copy | bin/dd/dd.c:101-104 | for every number of files, every block limit, every fragmentation of the input and every pattern of short and interrupted writes, a whole run that ends well has read all it should and written exactly the conversion of it, and one given up has read a part of that and written a prefix of the conversion; it does end well if no answer is an error and, on a tape, no write is short |
| EdLinks.UndoInverse | bin/ed/undo.c:109-130 | undoing one entry and then its counterpart restores every link of every line |
| EdLinks.UndoTwice | bin/ed/undo.c:95-140 | for every legal stack, undoing all of it and then all of the reversed stack restores every link |
| EdLinks.UndoBottom | bin/ed/undo.c:109-130 | the bottom entry is the last one undone, and a stack stays legal when an entry is put below it that is legal where it leads |
| EdLinks.LegalExtends | bin/ed/undo.c:109-130 | lines that are added later do not disturb what the entries below do |
| EdLinks.RingDelete | bin/ed/main.c:1223-1229 | relinking around a stretch takes just that stretch out of the ring, and is what undoing its addition does |
| EdLinks.RingInsert | bin/ed/ed.h:172-177 | inserting a line after another gives the ring with the line there |
| EdLinks.RingSwap | bin/ed/main.c:1159-1162 | the three relinkings of a move exchange two adjacent stretches of the ring, in either direction, and are undone by the pair of entries |
| EdBuffer.Buffer.GetAddressedLineNode | bin/ed/buf.c:169-198 | the n-th line for every n up to the last, from any cached position, in at most half the number of lines (rounded up) link steps, and the cache is that line and n |
| EdBuffer.Buffer.GetLineNodeAddr | bin/ed/buf.c:151-166 | the number of a line that is in the buffer; an error for one that is not, unless the buffer is empty |
| EdBuffer.Buffer.PushUndoStack | bin/ed/undo.c:47-81 | a new top entry with the lines at the two addresses; the cursor ends at the first of them |
| EdBuffer.Buffer.ClearUndoStack | bin/ed/undo.c:143-161 | an empty stack that leads back to the present lines and addresses |
| EdBuffer.Buffer.AddLineNode | bin/ed/buf.c:137-148 | the line stands behind the current one, becomes current, and the cached position stays right |
| EdBuffer.Buffer.AppendLines | bin/ed/main.c:1039-1087 | the new lines stand behind line n in order, as one undoable change, and the stack stays sound |
| EdBuffer.Buffer.DeleteLines | bin/ed/main.c:1211-1234 | the range is out of the ring, as one undoable change, and the cached position stays right |
| EdBuffer.Buffer.MoveLines | bin/ed/main.c:1129-1171 | the range stands behind the target line, as one undoable change of two entries; a move to its own place changes nothing |
| EdBuffer.Buffer.PopUndoStack | bin/ed/undo.c:94-140 | the lines are back in the order they had when the stack was cleared, addresses exchanged, and the stack is turned around into one that leads back here |
| EdBuffer.UndoLinks | bin/ed/undo.c:109-130 | the loop from the top of the stack does to the heap what undoing the changes one by one means, and flips the tag of a single entry and, of the two entries of a move, that of the lower one |
| EdBuffer.ReverseStack | bin/ed/undo.c:131-133 | the swaps reverse the stack |
| EdBuffer.TurnedEncodes | bin/ed/undo.c:131-133 | the reversed stack stands for the counterparts of the changes in reverse order; the two entries of a move exchange their parts by it |
| EdBuffer.MarkedTurned | bin/ed/undo.c:109-133 | flipping the tags and reversing the entries is what turns a stack around |
| EdBuffer.EncodesAlike | bin/ed/undo.c:118-129 | stacks for the same changes differ in the tags of moves at most |
| EdBuffer.MoveFacts | bin/ed/main.c:1144-1162 | the entries pushed for a move lead back to all the links before it |
| EdBuffer.DeleteFacts | bin/ed/main.c:1219-1228 | a deleted range keeps its outer links, so its entry leads back to all the links before |
| EdBuffer.SoundTurned | bin/ed/undo.c:94-140 | a sound stack is sound again after it has been undone and turned around |
| EdBuffer.PopTwice | bin/ed/undo.c:94-140 | calling `pop_undo_stack` twice restores the forward and backward link of every line, the current and last address, and the stack up to the tags of moves |
| EdGlobal.DeleteLines | bin/ed/main.c:1211-1234 | during a global command the range leaves the ring and the lines still to visit; no deleted line is visited later, and all others are, in their order |
| EdGlobal.MoveLines | bin/ed/main.c:1129-1171 | during a global command the lines moved, or moved to their own place, are not visited later, and all others are, in their order |
| EdGlobal.BufferSpan | bin/ed/main.c:1219-1222 | the walk from the line behind the first neighbour to the second passes over just the lines of the range |
| EdGlobal.PlacedSpan | bin/ed/main.c:1157-1166 | where lines have moved to, the walk passes over just these lines |
| EdGlobal.PopUndoStack | bin/ed/undo.c:94-140 | undoing during a global command leaves no line to visit |
| EdActive.ActiveList.SetActive | bin/ed/glbl.c:154-190 | the line is the last one on the list |
| EdActive.ActiveList.UnsetOne | bin/ed/glbl.c:202-207 | wherever the cyclic index stands, going around once clears the line if it is listed and nothing else |
| EdActive.ActiveList.UnsetActiveNodes | bin/ed/glbl.c:193-208 | exactly the lines of the range are cleared, and the pending visits lose those and keep their order |
| EdActive.ActiveList.NextActiveNode | bin/ed/glbl.c:211-218 | the first pending line, which is then no longer pending; none exactly if nothing is pending |
| EdActive.ActiveList.Clear | bin/ed/glbl.c:221-230 | nothing is pending |
| EdActive.VisitsInOrder | bin/ed/glbl.c:193-218 | over any interleaving of visits and removals, every line that is not removed first is visited once, in the original order, or still pending |
| EdCipher.RoundTrip | bin/ed/cbc.c:355-433 | for every text, every padding and every permutation with its inverse, decrypting the encrypted text gives the text |
| EdCipher.EncryptedLength | bin/ed/cbc.c:151-184 | an encrypted file has 8 * (length / 8 + 1) bytes |
| EdCipher.OneMoreBlock | bin/ed/cbc.c:368-374 | a further full block extends the file by its encryption under the chain so far, and becomes the new chain |
| EdCipherLaws.EveryBlock | bin/ed/cbc.c:357-391 | every block of a file is the cipher of the text there, combined with the block before it or, for the first one, with nothing; the last one is filled up with padding and its own length |
| EdCipherLaws.BlockRead | bin/ed/cbc.c:406-426 | reading any file, every whole block but the last gives the inverse of the cipher combined with the block before it |
| EdCipherLaws.LastRead | bin/ed/cbc.c:406-432 | the last block gives as many bytes as its last byte says, none if that is more than seven; an incomplete block gives nothing |
| EdCipher.CipherFile.InitDesCipher | bin/ed/cbc.c:115-132 | whatever was in the buffer, reading or writing starts anew with the zero vector |
| EdCipher.CipherFile.CbcEncode | bin/ed/cbc.c:355-391 | a full block is chained and sent; a shorter one is padded, with its length in the last byte, and leaves the vector alone |
| EdCipher.CipherFile.PutDesChar | bin/ed/cbc.c:152-167 | the text to be encrypted has one more character; blocks sent and buffer together stand for it |
| EdCipher.CipherFile.FlushDesFile | bin/ed/cbc.c:170-184 | the file is the encryption of all characters put, its length a multiple of eight |
| EdCipher.CipherFile.CbcDecode | bin/ed/cbc.c:393-433 | the characters decoded and the decryption of what is left are the decryption of the file; a corrupted or incomplete block ends it |
| EdCipher.CipherFile.GetDesChar | bin/ed/cbc.c:135-149 | the next character of the decryption, and end of file exactly when there is none, again and again |
| EdCipher.WriteAndRead | bin/ed/cbc.c:115-184 | writing a text, flushing, initialising and reading to the end of file gives the text |
| CshSyntax.CountNonNegative | bin/csh/parse.c:530-568 | the counting pass never ends below zero |
| CshSyntax.TurnCounted | bin/csh/parse.c:578-658 | a turn of the filling pass stores no more words than the counting pass has counted for the words it takes |
| CshSyntax.FillStops | bin/csh/parse.c:654-657 | after an error no further word is stored |
| CshSyntax.FillFits | bin/csh/parse.c:530-658 | for every range of words the filling pass stores at most as many words as were counted |
| CshSyntax.FillExact | bin/csh/parse.c:534-659 | without an error, and without a `&` or `!` behind a redirection of the output, it stores just as many as were counted |
| CshParser.FindSeparator | bin/csh/parse.c:331-354 | the scanning loops of the levels find the first separator of their kind outside parentheses |
| CshParser.FindBackground | bin/csh/parse.c:263-310 | the scanning loop of the top level finds the first `&` that puts a list into the background, and reports a parenthesis too many |
| CshParser.CountWords | bin/csh/parse.c:530-568 | the loop counts the words and its result is not negative |
| CshParser.FillWords | bin/csh/parse.c:570-658 | every word is stored inside the array allocated from the count, behind the others |
| CshParser.ParseSyntax | bin/csh/parse.c:235-247 | the loop and the levels below it build the tree the grammar functions define; the recursion ends, by the number of words and then the level |
| CshParser.ParseSyn3 | bin/csh/parse.c:487-672 | a command, group or keyword command with its redirections, built by the two passes over its words |
| CshGroups.GroupClosedIff | bin/csh/parse.c:660-664 | the words of a group lie within the range if and only if the filling pass does not end inside parentheses |
| CshGroups.GroupClosed | bin/csh/parse.c:570-664 | in a balanced range without an error every group is closed |
| CshGroups.GroupLeftOpen | bin/csh/parse.c:570-664 | the words `x > ) ( b` are balanced but make the parser leave its range after an error |
| CshGroups.AcceptedWhole | bin/csh/parse.c:235-672 | whatever the words, a parse that finds no error has read those words only, at every level |
| CshOverrun.AstrayIff | bin/csh/parse.c:235-672 | for all words, contexts and earlier errors, the parser keeps to its words if and only if no command in them loses more closing than opening parentheses to its redirections |
| CshOverrun.BalancedStays | bin/csh/parse.c:235-672 | words in which no closing parenthesis comes before its opening one are never left, whatever errors there are or were |
| CshOverrun.StrayStays | bin/csh/parse.c:249-315 | the words `) (` have a closing parenthesis first and are not left |
| CshOverrun.GroupLeftOpenStrays | bin/csh/parse.c:570-664 | the words `x > ) ( b` meet the condition for leaving them |
| CshOverrun.FillSwallows | bin/csh/parse.c:570-658 | the filling pass ends as deep in parentheses as its words do, but for those that redirections take as file names |
| CshOverrun.GroupBalanced | bin/csh/parse.c:578-664 | the words inside a group that is closed have matching parentheses, none closing first, so they are never left |
| CshOverrun.AstrayCommand | bin/csh/parse.c:485-672 | a command is left if and only if its redirections take more closing than opening parentheses |
| CshOverrun.AstrayPipe | bin/csh/parse.c:438-483 | a pipe is left if and only if one of its commands is, where in front of a bar a `>&` takes no file name |
| CshOverrun.AstrayLevel | bin/csh/parse.c:317-436 | the same for the levels of `;`, `\|\|` and `&&` |
| CshOverrun.AstrayLists | bin/csh/parse.c:249-315 | the top level is left if and only if one of the lists it looks into is, the last of them only if its parentheses match |
| CshErrors.ErrorStays | bin/csh/parse.c:235-672 | an error found before is the one reported, whatever the words |
| CshErrors.AcceptedBalanced | bin/csh/parse.c:235-315 | words that are accepted have matching parentheses, none closing first |
| CshErrors.UnmatchedReported | bin/csh/parse.c:254-315 | for words that put nothing into the background, a parenthesis that closes first is the error TooManyRP, and otherwise one that is not closed is TooManyLP and leaves no tree |
| CshErrors.NameMissing | bin/csh/parse.c:597-639 | a redirection at the end of the words is the error MisRed |
| CshErrors.NameTaken | bin/csh/parse.c:597-639 | so is one in front of a parenthesis or another redirection |
| CshErrors.InputInPipe | bin/csh/parse.c:626-646 | redirecting the input behind a bar is the error InRed |
| CshErrors.InputTwice | bin/csh/parse.c:626-646 | so is redirecting it a second time |
| CshErrors.HereInGroup | bin/csh/parse.c:626-646 | a here document inside parentheses is the error RedPar |
| CshErrors.OutputInPipe | bin/csh/parse.c:597-624 | redirecting the output in front of a bar is the error OutRed, with errors too in front of either bar; in front of a bar that takes the errors one redirection is let through |
| CshErrors.OutputTwice | bin/csh/parse.c:597-624 | of two redirections of the output the second one counts, with no error, except in front of a bar |
| CshErrors.NoCommand | bin/csh/parse.c:666-670 | nothing, or nothing but a redirection, is the error NullCom |
| CshErrors.GroupAndWord | bin/csh/parse.c:660-665 | a word behind a group is the error BadPlpS |
| CshErrors.TwoGroups | bin/csh/parse.c:582-589 | a second group is the error BadPlp |
| CshErrors.WordsInParentheses | bin/csh/parse.c:507-526 | words in parentheses belong to the command behind `exit`, `foreach`, `if`, `@`, `set`, `switch` and `while`, and behind no other word |
| CshPrinting.PrintFine | bin/csh/parse.c:249-493 | a printed tree is balanced, and outside parentheses has no separator that binds looser than its level |
| CshPrinting.JoinFine | bin/csh/parse.c:249-442 | joining two pieces by a separator keeps that |
| CshRoundTrip.RoundTrip | bin/csh/parse.c:235-672 | every tree in normal form, printed by the grammar of the comments, is parsed back without error to that tree, with F_NOFORK exactly on commands in front of a closing parenthesis |
| CshRoundTrip.AmpersandTakesList | bin/csh/parse.c:287-309 | `&` binds looser than `;`, and `;` than `\|\|` and `&&`: a list before it goes into the background as one group |
| CshRoundTrip.Round1a | bin/csh/parse.c:358-397 | the round trip at the level of `\|\|`, which takes the looser separators out of its halves |
| CshRoundTrip.Round1b | bin/csh/parse.c:399-436 | the round trip at the level of `&&` |
| CshRoundTrip.Round2 | bin/csh/parse.c:438-483 | the round trip at the level of pipes, with errors redirected or not |
| CshRoundTrip.ParenRound | bin/csh/parse.c:487-489 | the round trip of a group with redirections |
| CshRoundTrip.SimpleRound | bin/csh/parse.c:490-493 | the round trip of a simple or keyword command with redirections |
| CshBraces.SplitBraces | bin/csh/glob.c:134-223 | the three loops give one word for every alternative of the first group, or tell which bracket or brace is missing |
| CshBraces.CutAlternatives | bin/csh/glob.c:176-219 | the second pass cuts at the commas outside inner groups and brackets, and never meets an open bracket |
| CshBraces.Rewrite | bin/csh/glob.c:251-283 | replacing a word by its alternatives keeps the expansion of the list, and fewer steps remain |
| CshBraces.ExpandAppend | bin/csh/glob.c:240-286 | the words of a list expand one after another |
| CshExpbrace.Splice | bin/csh/glob.c:274-282 | shifting the array up and storing the alternatives puts them where the word was, in order, and loses no word |
| CshExpbrace.SpliceWord | bin/csh/glob.c:251-283 | after a rewrite the words before the position are still done, and the list still has the same expansion |
| CshExpbrace.GlobbraceSome | bin/csh/glob.c:176-222 | a group has at least one alternative |
| CshExpbrace.Expbrace | bin/csh/glob.c:226-290 | the worklist ends, with the recursive expansion of all words from left to right in the array, or with the first error that has |
| CshBraceMeaning.ExpansionIsProduct | bin/csh/glob.c:134-290 | a pattern of any nesting expands without error, and to the product of its alternatives in order from left to right if and only if it cannot come down to a pair of braces |
| CshBraceMeaning.NestedPairIsLeft | bin/csh/glob.c:134-290 | the words `{{},c}` expand to a list with `{}` in it, which is none of the words of the product |
| CshBraceMeaning.FirstGroup | bin/csh/glob.c:147-222 | the first group of a written pattern is found with just its alternatives, whatever groups and brackets are inside |
| CshBraceMeaning.WordsAppend | bin/csh/glob.c:134-290 | the words of two patterns in a row are all combinations |
| CshBraceMeaning.WordsPlain | bin/csh/glob.c:134-290 | the words of the product have no opening brace left, so none would be expanded again |
| CshBraceErrors.LeftAlone | bin/csh/glob.c:240-247 | a word without an opening brace, `{` and `{}` are left as they are |
| CshBraceErrors.CloseIff | bin/csh/glob.c:152-174 | outside brackets a group is closed exactly if the braces behind it go one below where it began, and otherwise the closing brace is missing |
| CshBraceErrors.BraceMissing | bin/csh/glob.c:152-174 | a word whose first group nothing closes is rejected for its missing brace |
| CshBraceErrors.BracketMissing | bin/csh/glob.c:153-162 | a word with a bracket in its first group that nothing closes is rejected for its missing bracket |
| CshBraceErrors.FirstMissing | bin/csh/glob.c:240-254 | the error of a list is that of its first word that has one; without one the expansions are strung together |
| CshJobs.EveryRun | bin/csh/proc.c:86-526 | in every reachable table each live job is one ring with one leader and one index of its own, the largest index is right, current and previous job are live leaders or none and differ, each process is in exactly one state, and no flushed one has still to be told about |
| CshJobs.StepKeeps | bin/csh/proc.c:86-526 | every step keeps that |
| CshJobs.GetCurrentFacts | bin/csh/proc.c:1199-1218 | the job found is live, and is neither the current one nor the one excluded |
| CshJobs.GetCurrentNone | bin/csh/proc.c:1209-1217 | if none is found there is no other live job |
| CshJobs.ClearCurrentFacts | bin/csh/proc.c:430-450 | the job is neither current nor previous afterwards, and the two pointers are as they should be |
| CshJobs.FlushKeeps | bin/csh/proc.c:395-428 | the processes of the job are no longer live, no other process is touched, and no pointer is left on the job |
| CshJobs.FlushAllStep | bin/csh/proc.c:382-393 | nothing is live, current, previous or being built |
| CshJobs.StartStep | bin/csh/proc.c:1101-1133 | a started job has exactly one state for each process still, and is not current or previous if put into the background |
| CshJobs.ChildStep | bin/csh/proc.c:111-204 | a reported status keeps all that holds in every table, through the flush or the note at the end of a job |
| CshJobs.AllocLeaderStep | bin/csh/proc.c:496-524 | a new job is live, and its index is that of no other job and at most one more than the largest |
| CshJobs.AllocFriendStep | bin/csh/proc.c:484-495 | a further process goes to the end of the ring of the job being built and shares its index and job id |
| CshJobs.NewIndexUnused | bin/csh/proc.c:502-517 | the index chosen, by counting up or by the search, is in use by no process |
| CshJobs.SomeUnused | bin/csh/proc.c:505-516 | the search for a free index ends, because fewer processes than numbers cannot use them all |
| CshJobs.SweepStep | bin/csh/proc.c:244-253 | the sweep removes exactly the flushed jobs, each with all its processes |
| CshJobs.NotedStep | bin/csh/proc.c:217-224 | telling about one process keeps all that holds in every table, with the flush of its job if that is over |
| CshJobs.NoteAllStep | bin/csh/proc.c:206-228 | after the pass over the list no process has still to be told about |
| CshJobs.NotifyStep | bin/csh/proc.c:1224-1236 | asking for a notice about a job keeps all that holds in every table |
| CshJobOutcomes.StateReported | bin/csh/proc.c:118-144 | whatever else happens, the process is then in the one state its status says: stopped, exited with 0 or with another code, interrupted or killed by another signal |
| CshJobOutcomes.JobGoesOn | bin/csh/proc.c:145-160 | while a process of the job runs, or once the job has been reported, nothing but the flags of the process changes |
| CshJobOutcomes.JobStops | bin/csh/proc.c:160-172 | a job with nothing running and something stopped becomes the current one, and the one that was current the previous one; its stopped processes have been reported, and it is not flushed |
| CshJobOutcomes.JobEnds | bin/csh/proc.c:173-196 | a job at an end is neither current nor previous any more; it is flushed, all of it, exactly if it is in the background and is told about at once |
| CshJobOutcomes.NoteNeeded | bin/csh/proc.c:189-201 | the leader needs a note exactly if the job is in the background and is not told about at once, or if it needed one before and has not been flushed |
| CshJobOutcomes.OthersUntouched | bin/csh/proc.c:111-204 | no record of another job changes |
| CshJobOutcomes.GetCurrentChosen | bin/csh/proc.c:1199-1218 | the job found is the first stopped one on the list other than the current one and the one excluded, or if there is none the first one other than those, or if there is none nothing |
| CshJobOutcomes.ClearCurrentRepoints | bin/csh/proc.c:430-450 | the previous job becomes current if there is one, and what is missing is chosen like that |
| CshJobOutcomes.JobStarts | bin/csh/proc.c:1113-1124 | the processes of a started job that are not at an end run, in the foreground exactly if asked to; no other flag and no other record changes |
| CshJobOutcomes.StartPoints | bin/csh/proc.c:1125-1126 | starting a job in the foreground leaves the pointers alone; in the background they are moved on from it |
| CshJobOutcomes.NewJob | bin/csh/proc.c:461-526 | a new job is at the front of the list and runs, in the foreground or not; its index is one more than the largest, or from 9 on the least one not in use; it fills the current or else the previous pointer if that is free |
| CshJobOutcomes.NewMember | bin/csh/proc.c:461-495 | a further process is at the front of the list, has the index and the job id of its job, and runs in the foreground or not |
| CshJobOutcomes.JobNoted | bin/csh/proc.c:217-224 | a job told about is flushed exactly if none of its processes runs or is stopped |
| CshJobOutcomes.JobMarked | bin/csh/proc.c:1224-1236 | asking for a notice marks the job's leader and changes no other flag, record or pointer |
| CshJobOutcomes.SweptOrder | bin/csh/proc.c:244-253 | the sweep keeps the order of the processes it leaves |
| CshJobTable.JobTable.constructor | bin/csh/proc.h:94-103 | the table starts empty |
| CshJobTable.JobTable.PGetCurr | bin/csh/proc.c:1199-1218 | the loop over the list finds the first stopped job, or else the first live one |
| CshJobTable.JobTable.PClrCurr | bin/csh/proc.c:430-450 | the pointers are moved on as the table's step says |
| CshJobTable.JobTable.FindLeader | bin/csh/proc.c:411-412 | following friends ends at the leader, for every process of a live job |
| CshJobTable.FlushRing | bin/csh/proc.c:417-421 | the loop around the ring clears the records of all processes of the job and no others |
| CshJobTable.StartRing | bin/csh/proc.c:1113-1124 | the loop around the ring starts every process of the job that is running or stopped |
| CshJobTable.JobTable.PFlush | bin/csh/proc.c:395-428 | flushing from any process of a job flushes the job; a flushed process is left alone; the table stays valid |
| CshJobTable.JobTable.PFlushAll | bin/csh/proc.c:382-393 | no listed process has a pid left, and there is no current or previous job |
| CshJobTable.JobTable.PStart | bin/csh/proc.c:1101-1133 | the heap becomes that of the started job; the table stays valid |
| CshJobTable.JobTable.TakeStatus | bin/csh/proc.c:118-155 | the process has its new state, and the flags collected are those of its whole job |
| CshJobTable.JobTable.SettleJob | bin/csh/proc.c:160-202 | at the end of a job the pointers, the reported marks, the flush and the note are as the table's step says |
| CshJobTable.JobTable.PChild | bin/csh/proc.c:111-204 | a reported status changes the heap as the table's step says, which is what the rows of CshJobOutcomes are about; the table stays valid |
| CshJobTable.JobTable.ChooseIndex | bin/csh/proc.c:502-517 | the nested loops find the least index not in use when the largest is at its limit |
| CshJobTable.JobTable.PAlloc | bin/csh/proc.c:461-526 | the new process leads a new job or joins the one being built; the table stays valid |
| CshJobTable.JobTable.PEndJob | bin/csh/proc.c:644-662 | no job is being built; the table stays valid |
| CshJobTable.JobTable.PSweep | bin/csh/proc.c:244-253 | the list has lost whole flushed jobs only, and every process left is live |
| CshJobTable.JobTable.PNoteOne | bin/csh/proc.c:217-224 | the heap changes as the table's step says |
| CshJobTable.JobTable.PNote | bin/csh/proc.c:206-228 | the loop over the list, flushing jobs as it goes, ends with no process to be told about; the table stays valid |
| CshJobTable.JobTable.DoNotify | bin/csh/proc.c:1224-1236 | the job's record has the mark; the table stays valid |
| CshCanon.Dcanon | bin/csh/dir.c:672-872 | for every path from the root the buffer ends with the path resolved by the stack rule, whose laws are those of CshCanonLaws, and the loop ends although it moves back, because the text still to do gets shorter; it looks one character past the end of the path exactly if the path ends in a slash |
| CshCanon.OneComponent | bin/csh/dir.c:672-871 | a turn resolves one component: the text before the position is the stack, the rest resolves to the same path as before, and is shorter; a turn looks past the end exactly if it is the last one and its component is empty |
| CshCanon.CanonTwice | bin/csh/dir.c:672-872 | a resolved path is the root, `/.` or names only, `/.` exactly for a last `.` where nothing else is left, and resolving it again changes nothing |
| CshCanonLaws.DotDotTakesName | bin/csh/dir.c:702-791 | wherever a name is followed by `..`, the path resolves as it does without both of them; at the end they leave a slash |
| CshCanonLaws.DotDotAtRoot | bin/csh/dir.c:702-791 | at the root `..` goes alone |
| CshCanonLaws.DotOrNothingGoes | bin/csh/dir.c:673-701 | a `.` or an empty component with something behind it goes |
| CshCanonLaws.LastDot | bin/csh/dir.c:693-701 | a last `.` goes with its slash, unless nothing else is left: then `/.` stays |
| CshCanonLaws.LastSlash | bin/csh/dir.c:688-692 | a last slash behind anything but a `.` goes, except that of the root |
| CshCanonLaws.NamesStay | bin/csh/dir.c:792-871 | a path of names is not changed |
| CshCanon.LastComponent | bin/csh/dir.c:672-686 | the last component of a path is empty exactly if the path ends in a slash |
| CshCanon.FlushedLast | bin/csh/dir.c:673-678 | dropping empty components keeps the last one |
| CshCanon.TrailingSlash | bin/csh/dir.c:679-686 | for the path `/a/` the source looks past the end |
| CshCanon.SplitSlashed | bin/csh/dir.c:672-686 | cutting a path at its slashes and joining the components gives the path |
| CshCanon.FlushSlashes | bin/csh/dir.c:673-678 | empty components that are not the last go, and the text behind them moves up |
| CshCanon.CutComponent | bin/csh/dir.c:679-686 | the component stands alone up to where its slash was; behind an empty one the source looks past the end of the path |
| CshCanon.DotCase | bin/csh/dir.c:693-701 | `.` goes, except a last one directly under the root |
| CshCanon.DotDotCase | bin/csh/dir.c:702-791 | `..` goes with the component before it; at the root it goes alone |
| CshCanon.NullCase | bin/csh/dir.c:688-692 | a last empty component goes with its slash, unless the path is the root |
| CshCanon.NameCase | bin/csh/dir.c:792-871 | a name stays |
| CshNumbers.NumberRoundTrip | bin/csh/set.c:361-427 | reading the text of any 32-bit number gives the number, the smallest included |
| CshNumbers.MinRoundTrip | bin/csh/set.c:380-388 | the smallest number, whose negation overflows, is written digit by digit and read back |
| CshNumbers.DigitsDecimal | bin/csh/set.c:423-424 | wrapping at every digit gives the decimal value modulo 2^32 |
| CshNumbers.ReadNumber | bin/csh/set.c:405-427 | the loop reads a sign and digits, and rejects any other text |
| CshNumberText.NumberOf | bin/csh/set.c:405-427 | a sign, which may have a plus in front of it, and digits are the decimal value of the digits, modulo 2^32 |
| CshNumberText.NumberOnly | bin/csh/set.c:405-427 | no other text is a number |
| CshNumberText.TextOf | bin/csh/set.c:361-403 | the text of a number is a minus if it is negative and its digits, in decimal without leading zeros |
| CshExpr.IgnoreParses | bin/csh/exp.c:104-601 | whenever an expression can be evaluated it can be parsed with values ignored, and both stop at the same word |
| CshExpr.Ignore6 | bin/csh/exp.c:427-601 | the same for a primary, with an intermediate text that is a number if the value's text is one |
| CshExpr.ShiftDone | bin/csh/exp.c:326-338 | a shift, which is computed even while values are ignored, cannot fail then if it does not fail otherwise |
| CshExpr.FindBrace | bin/csh/exp.c:479-486 | the loop finds the first closing brace, or that there is none |
| CshExpr.BracedCommand | bin/csh/exp.c:468-501 | a command in braces ends at the first closing brace, is an error without one, has no value while values are ignored, and otherwise tells whether it succeeded |
| CshExprTree.EvaluatesTree | bin/csh/exp.c:97-601 | the words of every tree of the ten levels are evaluated to the tree's value, all of them, with `\|\|` and `&&` short-circuit and every operator associating to the right; what the operators give is said by the rows of CshArith |
| CshExprTree.Parses0 | bin/csh/exp.c:104-125 | the same at the level of `\|\|`, for any words behind that do not go on with an operator |
| CshExprTree.Parses2c | bin/csh/exp.c:219-265 | the same for the comparisons of text, whose right side is not globbed for matches |
| CshExprTree.Parses3 | bin/csh/exp.c:267-311 | the same for the comparisons of numbers, the code of the operator being the value while ignoring |
| CshExprTree.Parses5 | bin/csh/exp.c:380-425 | the same for multiplication, division and remainder, division by zero an error |
| CshExprTree.Parses6 | bin/csh/exp.c:427-601 | the same for primaries: prefixes, groups, commands, file inquiries and words |
| CshArith.Sums | bin/csh/exp.c:343-425 | the words of a sum, a difference or a product of any two numbers are evaluated to it, modulo 2^32 |
| CshArith.Divisions | bin/csh/exp.c:399-419 | quotient and remainder make up the dividend, with a remainder smaller than the divisor and of the sign of the dividend; division by 0 is an error |
| CshArith.Comparisons | bin/csh/exp.c:279-308 | the four comparisons of numbers give 1 or 0 |
| CshArith.ShiftNothing | bin/csh/exp.c:326-339 | a shift by 0 changes nothing |
| CshArith.ShiftLeftMore | bin/csh/exp.c:326-339 | one place more to the left doubles, modulo 2^32 |
| CshArith.ShiftRightMore | bin/csh/exp.c:326-339 | one place more to the right halves, rounding down |
| CshArith.ShiftLeftModulo | bin/csh/exp.c:326-339 | only the count modulo 32 matters |
| CshArith.ShiftRightModulo | bin/csh/exp.c:326-339 | to the right as well |
| CshArith.BitsOfOr | bin/csh/exp.c:150-171 | every bit of `a \| b` is set exactly if that of a or of b is |
| CshArith.BitsOfXor | bin/csh/exp.c:173-194 | every bit of `a ^ b` is set exactly if those of a and b differ |
| CshArith.BitsOfAnd | bin/csh/exp.c:196-217 | every bit of `a & b` is set exactly if those of a and b are |
| CshArith.OperandsByValue | bin/csh/exp.c:150-425 | an operation on trees is that on the numbers they stand for, so the rows above hold of any operands |
| CshArith.Connectives | bin/csh/exp.c:104-148 | `\|\|` and `&&` of two numbers give 1 or 0, as in logic |
| CshArith.ShortCircuit | bin/csh/exp.c:104-148 | behind a left side that settles the outcome, any tree that can be parsed may stand, and the outcome is 0 or 1 |
| CshArith.DivisionSkipped | bin/csh/exp.c:399-411 | a division by 0 is such a tree |
| CshArith.EqualityCodes | bin/csh/exp.c:231-258 | while values are ignored, a comparison of text leaves the code of its operator |
| CshArith.RelationCodes | bin/csh/exp.c:279-308 | so does a comparison of numbers |
| CshArith.Equalities | bin/csh/exp.c:219-265 | `==` and `!=` compare the globbed texts |
| CshArith.Matches | bin/csh/exp.c:219-265 | `=~` and `!~` match the globbed text against the pattern, which is not globbed |
| CshArith.NumberAlone | bin/csh/exp.c:97-102 | the word of a number is evaluated to that number |
| CshArith.NumberGrouped | bin/csh/exp.c:457-467 | a number in parentheses is that number |
| CshArith.Negation | bin/csh/exp.c:437-446 | `!` tells whether a number is 0 |
| CshArith.Complement | bin/csh/exp.c:447-456 | `~` turns all the bits of a number around |
| CshArith.Outcomes | bin/csh/exp.c:468-596 | a command in braces gives 1 exactly if it succeeds, and a file inquiry exactly if it holds of the globbed name |
| CshArith.InquiryWords | bin/csh/exp.c:504-505 | a word is a file inquiry exactly if it begins with a minus and one of the eleven letters |
| CshArith.InquiryErrors | bin/csh/exp.c:505-518 | an inquiry whose word goes on behind the letter is an error, and so is one with nothing behind it, or an operator that is not the name of a file |
| CshArith.OperandNumber | bin/csh/exp.c:683-690 | a word is the number it is the text of, but one that begins with a plus is an error |
| CshArith.NotANumber | bin/csh/exp.c:683-690 | a word that is no number cannot be calculated with |
| CshArith.OperatorWords | bin/csh/exp.c:634-681 | the words that are operators are those that begin with `<` or `>` and sixteen others |
| CshHash.SameIff | bin/csh/exec.c:541-563 | the filter changes the outcome of a search if and only if it keeps the command that would be found from being tried |
| CshHash.SameSearch | bin/csh/exec.c:449-566 | with the bits of directories that list all that can be executed in them, every search has the outcome it has without the hash |
| CshHash.BitSet | bin/csh/exec.c:100-101 | setting a bit sets that bit and no other of its byte |
| CshHash.CommandHash.HashOf | bin/csh/exec.c:509-521 | the loop computes the hash of the name, within the table |
| CshHash.CommandHash.SetBit | bin/csh/exec.c:101-101 | exactly one position is added to the set bits |
| CshHash.CommandHash.TestBit | bin/csh/exec.c:100-100 | whether the position is among the set bits |
| CshHash.CommandHash.DoHash | bin/csh/exec.c:449-487 | the bit of every listed name is set at its index in the path, and no bit is set without such a name |
| CshHash.CommandHash.IsCommand | bin/csh/exec.c:523-566 | the loop finds the first index at which the command can be executed, skipping those the filter rules out when hashing is on |
| CshHash.HashedSearch | bin/csh/exec.c:449-566 | searching, hashing the path and searching again finds the same index |
| CshHashLaws.HashOfName | bin/csh/exec.c:512-521 | a further character multiplies the hash of a name by 243 and is added to it, modulo 8192 |
| CshHashLaws.SearchFirst | bin/csh/exec.c:541-565 | without hashing a search finds the first component the command runs from, and nothing exactly if there is none |
| CshHashLaws.FilteredFirst | bin/csh/exec.c:541-565 | with it, the first of those that are relative or have the bit of the name set |
| CshHashLaws.BitOfName | bin/csh/exec.c:464-486 | a name listed in an absolute component, other than `.` and `..`, has its bit set there |
| CshHashLaws.NameOfBit | bin/csh/exec.c:464-486 | a bit is set only for such a name |

## Left out

- dd: byte swapping, `sync`, `osync` and `noerror`, the unbuffered `bs` mode, positioning, argument parsing, statistics but for the counts of blocks and bytes, and the number of truncated records, which depends on where reads end.
- DdStream.Dd.Take: the branches for `sync`, `noerror` and `bs` are left out.
- DdStream.Dd.DdIn: the branches for `sync`, `noerror`, `swab` and `bs` are left out.
- DdStream.Dd.DdClose: the padding of the last block for `osync` is left out.
- dd: the messages about short writes; a short write to a tape ends the run, as in the source.
- DdStream.Dd.DoBlock: `static int intrunc` is a field of the converter, so one converter is one run of the program.
- ed: regular expressions, the scratch file with the lines' text, marks, key entry and key expansion, giving back the memory of deleted lines, copying and joining lines (both are made of the operations modelled here).
- EdBuffer.Buffer.DeleteLines: outside a global command; with the list of lines to visit it is EdGlobal.DeleteLines.
- EdBuffer.Buffer.MoveLines: the same, with EdGlobal.MoveLines.
- EdBuffer.Buffer.PopUndoStack: the same, with EdGlobal.PopUndoStack.
- EdBuffer.Buffer.ClearUndoStack: the detached lines are forgotten, not freed.
- EdCipher.CipherFile.CbcEncode: the file can always be written, so the error results of writing do not occur.
- EdCipher.CipherFile.PutDesChar: nor does its end-of-file result after a failed write.
- EdCipher.CipherFile.FlushDesFile: nor does its end-of-file status after a failed write.
- EdCipher.RoundTrip: the cipher is any permutation with its inverse; DES itself and its key are no part of the model.
- csh variables: arrays and subscripts, exporting to the environment, and the actions tied to special names.
- CshVars.Madrof: the pattern match is any given function of name and pattern.
- csh's parser: aliases and history, the lexical analyser, and freeing trees; the circular list of words is a sequence together with the word behind the range, and the tree `Astray` stands for any read outside the range.
- CshRoundTrip.RoundTrip: trees the grammar cannot produce (an empty command, a redirection where the context forbids it) are not in normal form; what the parser says to arbitrary words is covered by CshOverrun.AstrayIff and CshGroups.AcceptedWhole.
- CshParser.ParseSyn3: the argument vector is filled in an array and then kept as a sequence in the tree.
- csh's globbing: tildes, backquotes and file name patterns; the fixed-size buffer a word is built in (MAXPATHLEN) is unbounded.
- CshBraceMeaning.ExpansionIsProduct: words with an open bracket or brace are the error case of CshExpbrace.Expbrace; words with an opening brace inside square brackets, which the source takes for a group unless it is already in one, are expanded by Expbrace as the source does but have no pattern.
- csh's jobs: signals, terminals and process groups, the waiting itself, printing, timing flags, the directory of a job and the arguments shown for it, and saving and restoring the job being built around a substitution (`psavejob`, `prestjob`), which may restore a job that has been flushed meanwhile.
- CshJobs.EveryRun: a forked process has a pid no listed process has, and a status is reported for a process that is running or stopped; both are what the system promises.
- CshJobTable.JobTable.PSweep: the list of processes is a sequence the methods reassign; the friends' rings are linked in the heap.
- CshJobs.StartStep: called for the leader of a live job, which is what job arguments are resolved to.
- CshCanon.Dcanon: symbolic links, relative paths, and the substitution of the home directory behind the loop; the buffer is an array of characters with a NUL in it.
- CshCanon.CutComponent: an empty last component ends where it stands; its last result says that the source looks one character further there, and what it finds there is not modelled.
- CshCanon.OneComponent: a turn that looks past the end of the path goes on as if it had found nothing there.
- CshCanon.DotDotCase: the expansion of a symbolic link in front of `..` is left out.
- CshCanon.NameCase: the expansion of a name that is a symbolic link is left out.
- csh's expressions: what file inquiries, globbing, pattern matching and commands in braces say is given; the statement `@` with its assignments.
- CshExprTree.EvaluatesTree: trees that repeat a comparison of text without parentheses are not made by the grammar; words that are operators stand for nothing where a value is expected, as in the source, and are no leaves of a tree; CshExpr.IgnoreParses is for all words.
- CshExpr.ShiftDone: shift counts are taken modulo 32 and overflow wraps around, as the machines concerned do; the smallest number divided by -1, and its remainder, wrap as well, where some of them trap instead.
- CshHash.CommandHash.HashOf: characters beyond ASCII count with their code, whatever the sign of a character is.
- csh's commands: executing them, and the search that does so, which uses the same filter as the one modelled.
