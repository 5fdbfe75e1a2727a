# Verified models of the network and storage services

This project models five parts of a Contiki system for the CC2530 and proves what they keep over all inputs and all
runs. Each part has a plain specification (functions and datatypes), the source's own imperative form (classes and
methods that are proved to do what the specification says) and the theorems.

**CoAP (draft-ietf-core-coap-07).** `CoapPacket`, `CoapWire`, `CoapMessage` and `CoapSplit` describe packets, the
option encoding of sections 3.1 and 3.2 of the draft and the Block options of section 2.1 of draft-ietf-core-block.
`CoapSerializer` and `CoapSerializeMessage` are the serializer writing into a buffer, `CoapParser` the parser that
merges repeated options over the bytes it has already read. `CoapFold`, `CoapRoundTrip` and `CoapExact` lead to the
round trip and to the exact condition under which it holds. `CoapDiscovery` is the discovery resource, which produces
any window of a listing it never builds; `CoapTransactions` and `CoapRetransmission` are the transaction layer of
section 4.1; `CoapBackoff`, `CoapCallbacks`, `CoapAnswers` and `CoapTimer` say exactly when its waits double, which
callbacks it calls, what an answer ends and what the timer sends. `CoapOptions` gives every datagram its outcome,
`CoapFilter` every filter its resources.

**Antelope.** `AntelopeLogic` gives conditions their meaning, `AntelopeArithmetic` its laws, `AntelopeBytecode` their
prefix code, `AntelopeVm` the machine that executes it and derives value ranges from it, `AntelopeParser` the
recursive descent that emits it by shifting. `AntelopeGrouping` compares its grouping of AND and OR with the usual
one. `AntelopeRanges` and `AntelopeClauses` say when derived ranges may be trusted. `AntelopeSelect` compares a
selection through an inline index with a scan, `AntelopeInverse` inverse logic with plain logic, `AntelopeJoin` the
resumable join with nested loops. `Maxheap`, `MaxheapTree`, `MaxheapIndex`, `MaxheapAccept` and `MaxheapStore` are the
tree of hashed key ranges with append-only buckets, for an arbitrary hash function.

**JSON.** `JsonTree` and `JsonPrinter` are trees and the printer that walks them one step at a time, `JsonParser` the
pushdown tokenizer, `JsonRoundTrip` the exact class of trees that survive both, `JsonTokens` the proof that their
tokens determine them, `JsonLayout` and `JsonBrackets` what white space and brackets may be in a text.

**Dissemination.** `Deluge`, `DelugeNode`, `DelugeNetwork` and `DelugeExact` model paged, versioned dissemination,
`DelugeCrc` and `DelugeRequests` damaged and repeated messages; `Codeprop`, `CodepropNetwork`, `CodepropProgress` and
`CodepropOnce` go-back-N with NACKs. Messages, once sent, can be delivered any number of times, in any order, or
never.

**Serial link.** `Crc16`, `Crc16Errors`, `Crc16Period` and `SerialFraming` model the checksum, the errors it detects
and the frames of the programmer.

Some properties are false of the code. It is modelled as it is, and these theorems say exactly when it meets them:

- A CoAP message is read back as it was sent, and its option count is right: `CoapExact.RoundTrip`,
  `OptionCountExact`. A gap of 14 or 15 in front of Uri-Query, Block2, Block1 or If-None-Match makes the count one too
  high; separators at the ends of a path, and slashes behind a separator, are lost.
- The discovery resource gives a list separated by commas: `CoapDiscovery.ListingExact`. A filter that leaves the last
  resource out makes the listing end in a comma. It is transferred without an error: `Transfer`. A listing that ends
  in attributes and fills its last window is announced as going on, and the next request gets 4.02.
- Retransmissions back off: `CoapBackoff.BackoffExactly`. The timer loop can send a message before its owner does. A
  transaction calls no foreign callback: `CoapCallbacks.ForeignCalls`. A block keeps the callback of its last user.
- Ranges derived from a condition are sound: `AntelopeClauses.SoundExactly`, with simpler conditions for a constant on
  the left, for two constants and for one OR in `AntelopeRanges`.
- AND binds tighter than OR: `AntelopeGrouping.GroupingExact`. Connectives group to the right.
- A selection reads only rows of the relation: `AntelopeSelect.Select`. A search below the first value of an inline
  index reads a row that does not exist, because the end of a relation is not an error code.
- An update round of Deluge is safe: `DelugeExact.RoundSafeExactly`. A leftover request spreads old bytes under the
  new version number, and a packet with a wrong checksum overwrites good bytes.
- A code receiver holds a prefix of the program: `CodepropNetwork.RunSafeExactly`. A NACK for a program that is met in
  the middle clears the address of the packet it answers, so that packet is stored as the first one.
- The checksum detects two wrong bits: `Crc16Period.TwoErrorsExact`.
- A printed JSON tree is tokenized back: `JsonRoundTrip.RoundTrip`. The tokenizer refuses arrays at the root and pairs
  whose value ends in an empty container, and reads negative numbers without their sign; the printer does not escape
  backslashes.

Other behaviour that a reader may not expect, modelled as it is:

- The last usable index is chosen for a selection, not the one with the smallest range, because the smallest range so
  far is never recorded; `AntelopeSelect.WiderChosen` is an example.
- The error code of a failed range search is lost in an unsigned return value; the selection still ends correctly.
- After its last retransmission a transaction is given up at once, without another wait.
- The heap documentation says that a split copies entries to the children; the code leaves them in the parent, and
  lookups search upwards.

## Model

| member | source | states |
|---|---|---|
| CoapExact.RoundTrip | cc2530/contiki_os/apps/er-coap-07/er-coap-07.c:302-739 | Parsing a serialized message gives back type, code, message id, payload, option bitmap (the fence-post bit aside) and every set option, block offsets included, if and only if: the header fits, there is no Proxy-Uri, paths and queries have no separator at either end and no `/` behind a separator, block sizes are powers of two from 16 to 2048, no gap of 14 or 15 is in front of an option from Uri-Query on, and there are at most 15 headers |
| CoapExact.OptionCountExact | cc2530/contiki_os/apps/er-coap-07/er-coap-07.c:444-490 | The option count put into the header is the number of option headers written, or one more exactly when a gap of 14 or 15 is in front of an option from Uri-Query on |
| CoapExact.FenceCountExact | cc2530/contiki_os/apps/er-coap-07/er-coap-07.c:114-128 | For the option numbers of the draft the fence posts written are (gap)/14 many if and only if the gap is neither 14 nor 15 |
| CoapExact.FencePostBytes | cc2530/contiki_os/apps/er-coap-07/er-coap-07.c:114-128 | For every target number the insertion loop writes one-byte headers with deltas 1 to 14 and no value, their deltas add up to the number reached, and that number is a multiple of 14 |
| CoapWire.AfterFencesBound | cc2530/contiki_os/apps/er-coap-07/er-coap-07.c:114-128 | For every target number the fence posts stop at or below it, within a remaining delta of 15 |
| CoapWire.IntRoundTrip | cc2530/contiki_os/apps/er-coap-07/er-coap-07.c:84-150 | The minimal big-endian encoding of every 32-bit number parses back to it |
| CoapExact.BlockUnpacks | cc2530/contiki_os/apps/er-coap-07/er-coap-07.c:467-485 | A packed Block option unpacks to its number and more flag with offset number times size, and to its size if and only if that is a power of two from 16 to 2048 |
| CoapExact.SizeExponent | cc2530/contiki_os/apps/er-coap-07/er-coap-07.c:71-82 | The size exponent written for a block size gives the size back if and only if it is one of the eight legal sizes |
| CoapExact.ProxyChunks | cc2530/contiki_os/apps/er-coap-07/er-coap-07.c:331-345 | A Proxy-Uri of any length is spread over options of 270 bytes, the last one of at least one, which together are the Proxy-Uri |
| CoapSplit.SplitMergeExact | cc2530/contiki_os/apps/er-coap-07/er-coap-07.c:155-227 | Splitting a path or query into options and merging them again restores it if and only if every cut keeps its separator |
| CoapSplit.SplittablePath | cc2530/contiki_os/apps/er-coap-07/er-coap-07.c:155-203 | For a path those are the paths without a slash at either end and without two slashes in a row |
| CoapSplit.MergeRestores | cc2530/contiki_os/apps/er-coap-07/er-coap-07.c:155-227 | A value whose cuts keep their separators is restored by merging its parts |
| CoapFold.ParseFolds | cc2530/contiki_os/apps/er-coap-07/er-coap-07.c:557-724 | Parsing the encoding of an ascending list of options, with the right count, is one pass over the options with the fence posts marked, and leaves the payload |
| CoapFold.ShortParse | cc2530/contiki_os/apps/er-coap-07/er-coap-07.c:557-724 | With a count smaller than the number of headers what is parsed has less option content than what was encoded |
| CoapMessage.EncodeAppend | cc2530/contiki_os/apps/er-coap-07/er-coap-07.c:302-490 | Delta encoding composes: the bytes of two lists are those of the first followed by those of the second, continued from the last number of the first |
| CoapExact.NumbersNeverWrap | cc2530/contiki_os/apps/er-coap-07/er-coap-07.c:562-724 | In the eight-bit option number of the parser no accepted message wraps around: parsing with unbounded numbers gives the same result |
| CoapExact.MessageNumbersNeverWrap | cc2530/contiki_os/apps/er-coap-07/er-coap-07.c:535-739 | The same for a whole message |
| CoapOptions.DatagramExact | cc2530/contiki_os/apps/er-coap-07/er-coap-07.c:535-739 | For every datagram of version 1, said of the options that its header bytes announce: the first refused option decides the error; options that run over the end are read behind it; otherwise every field of the message is that of the last option of its number, the joined values of a repeated one, or the first Accept values, and the payload is what is behind the options |
| CoapOptions.AcceptedKnown | cc2530/contiki_os/apps/er-coap-07/er-coap-07.c:713-717 | No accepted message has Proxy-Uri or an odd option number that is not known |
| CoapOptions.BadOptionExact | cc2530/contiki_os/apps/er-coap-07/er-coap-07.c:713-717 | 4.02 is answered if and only if the first option that is Proxy-Uri or an unknown odd number is such an odd number |
| CoapOptions.BadRequestExact | cc2530/contiki_os/apps/er-coap-07/er-coap-07.c:552-556 | 4.00 is answered if and only if the version is not 1 |
| CoapOptions.UnknownCritical | cc2530/contiki_os/apps/er-coap-07/er-coap-07.c:713-717 | A fence post and then option 23 are answered with 4.02 |
| CoapOptions.ParseIntExact | cc2530/contiki_os/apps/er-coap-07/er-coap-07.c:84-96 | An integer option of any length stands for its big-endian number modulo 2^32 |
| CoapSerializer.CoapLog2 | cc2530/contiki_os/apps/er-coap-07/er-coap-07.c:71-82 | The loop computes the rounded-down binary logarithm |
| CoapSerializer.SetOptionHeader | cc2530/contiki_os/apps/er-coap-07/er-coap-07.c:98-112 | The short and the long length form of an option header, written in place |
| CoapSerializer.InsertFencePosts | cc2530/contiki_os/apps/er-coap-07/er-coap-07.c:114-128 | The loop writes exactly the fence posts and reaches the number they stop at |
| CoapSerializer.SerializeIntOption | cc2530/contiki_os/apps/er-coap-07/er-coap-07.c:130-150 | An integer option in place: value bytes behind a one-byte gap, header into the gap, fence posts first |
| CoapSerializer.SerializeArrayOption | cc2530/contiki_os/apps/er-coap-07/er-coap-07.c:152-203 | An opaque option in place is fence posts, header and value |
| CoapSerializer.SerializeSplitOption | cc2530/contiki_os/apps/er-coap-07/er-coap-07.c:157-203 | The splitting loop writes one option for each part, deltas after the first being 0 |
| CoapSerializeMessage.PutLowOptions | cc2530/contiki_os/apps/er-coap-07/er-coap-07.c:302-365 | The option cascade up to Uri-Host keeps the buffer equal to the encoding of the options written so far, with position, current number and option count |
| CoapSerializeMessage.PutMiddleOptions | cc2530/contiki_os/apps/er-coap-07/er-coap-07.c:366-442 | The same from Location-Path to If-Match |
| CoapSerializeMessage.PutHighOptions | cc2530/contiki_os/apps/er-coap-07/er-coap-07.c:443-497 | The same from Uri-Query to If-None-Match |
| CoapSerializeMessage.SerializeMessage | cc2530/contiki_os/apps/er-coap-07/er-coap-07.c:302-517 | The whole serializer in place produces the datagram of the specification, or returns 0 when the header is too long |
| CoapParser.MergeInPlace | cc2530/contiki_os/apps/er-coap-07/er-coap-07.c:205-227 | Merging a repeated option over consumed header bytes changes no byte behind the option, no other option value, and makes the merged value the two values with a separator between them |
| CoapParser.ViewKept | cc2530/contiki_os/apps/er-coap-07/er-coap-07.c:562-724 | A change of the buffer that leaves the option values alone leaves the parsed message alone |
| CoapParser.MessageParser.MergeMultiOption | cc2530/contiki_os/apps/er-coap-07/er-coap-07.c:205-227 | The memmove leaves the buffer as the specification of the merge says |
| CoapParser.MessageParser.ApplyOption | cc2530/contiki_os/apps/er-coap-07/er-coap-07.c:584-724 | One option processed in place is one option applied to the message parsed so far |
| CoapParser.MessageParser.ParseOptionLoop | cc2530/contiki_os/apps/er-coap-07/er-coap-07.c:557-724 | The option loop in place gives what pure parsing of the original bytes gives |
| CoapParser.MessageParser.ParseMessage | cc2530/contiki_os/apps/er-coap-07/er-coap-07.c:535-739 | In-place parsing refines pure parsing of the bytes as they arrived: same message, same error; the payload ends in a zero byte |
| CoapDiscovery.PutString | cc2530/contiki_os/apps/er-coap-07/er-coap-07-engine.c:341-351 | snprintf copies the part of a string that is inside the window; the position moves by the full length |
| CoapDiscovery.PutResource | cc2530/contiki_os/apps/er-coap-07/er-coap-07-engine.c:326-401 | One round of the loop extends the window by the entry of a resource, and ends the loop exactly when the entry runs over the window or ends it inside the attributes of the last resource |
| CoapDiscovery.Handle | cc2530/contiki_os/apps/er-coap-07/er-coap-07-engine.c:307-421 | For every resource list, filter, offset and size the buffer holds that window of the text that the loop would print without a limit; out of scope is answered exactly for a nonempty text that ends at or before the offset; the new offset says whether more is to come |
| CoapDiscovery.Transfer | cc2530/contiki_os/apps/er-coap-07/er-coap-07-engine.c:307-421 | Consecutive windows joined are that text, and they are the links of the selected resources separated by commas if and only if nothing is selected or the last resource is; the transfer ends in BlockOutOfScope if and only if the text ends in attributes and fills its last window |
| CoapDiscovery.ListingExact | cc2530/contiki_os/apps/er-coap-07/er-coap-07-engine.c:326-401 | The listing is the links of the selected resources separated by commas if and only if nothing is selected or the last resource is |
| CoapDiscovery.ListingJoined | cc2530/contiki_os/apps/er-coap-07/er-coap-07-engine.c:380-387 | Otherwise it is those links and one comma too many at the end |
| CoapDiscovery.TrailingComma | cc2530/contiki_os/apps/er-coap-07/er-coap-07-engine.c:380-387 | With resources of types x and y the filter x gives a listing that ends in a comma |
| CoapFilter.FilterExact | cc2530/contiki_os/apps/er-coap-07/er-coap-07-engine.c:316-325 | A filter that ends in an asterisk selects exactly the resources whose quoted type starts with what is in front of it, any other filter those of exactly that type |
| CoapFilter.UntypedExact | cc2530/contiki_os/apps/er-coap-07/er-coap-07-engine.c:316-325 | A resource without a type is selected by the empty filter only |
| CoapFilter.TemperatureSelected | cc2530/contiki_os/apps/er-coap-07/er-coap-07-engine.c:316-325 | The filter temp* selects a resource of type temperature, the filter temp does not |
| CoapRetransmission.EveryRunSafe | cc2530/contiki_os/apps/er-coap-07/er-coap-07-transactions.c:77-199 | In every run a transaction is sent at most 1 + COAP_MAX_RETRANSMIT times and waits at most COAP_MAX_RETRANSMIT times, as often as it is sent or once less, its callback is called at most once, and the allocated blocks are those on the list, at most COAP_MAX_OPEN_TRANSACTIONS |
| CoapBackoff.BackoffExactly | cc2530/contiki_os/apps/er-coap-07/er-coap-07-transactions.c:97-199 | In a run every wait of a transaction lasts its first wait times two to the number of its earlier waits, the first one two to three times CLOCK_SECOND, if and only if the timer loop never comes to a confirmable block that its owner has not sent yet |
| CoapBackoff.StepExact | cc2530/contiki_os/apps/er-coap-07/er-coap-07-transactions.c:77-199 | For one step from any such state, both ways |
| CoapBackoff.CheckExact | cc2530/contiki_os/apps/er-coap-07/er-coap-07-transactions.c:185-199 | For the timer loop, which comes to an unsent block unless it ends at one before it |
| CoapRetransmission.StepKeeps | cc2530/contiki_os/apps/er-coap-07/er-coap-07-transactions.c:77-199 | Every step keeps the invariant on blocks, list, counters and log |
| CoapRetransmission.SendKeeps | cc2530/contiki_os/apps/er-coap-07/er-coap-07-transactions.c:97-154 | Sending keeps it in all three cases: not confirmable, sent again later, and given up at once after the last transmission |
| CoapRetransmission.CheckKeeps | cc2530/contiki_os/apps/er-coap-07/er-coap-07-transactions.c:185-199 | So does the timer loop, which ends early when it removes a block |
| CoapCallbacks.ForeignCalls | cc2530/contiki_os/apps/er-coap-07/er-coap-07-transactions.c:77-167 | After any run, the next step calls a handler for a transaction that has registered none if and only if it ends the transaction, by an answer or after its last transmission, on a block whose last registered callback is that handler |
| CoapCallbacks.BlockCallback | cc2530/contiki_os/apps/er-coap-07/er-coap-07-transactions.c:77-95 | After any run the callback of a block is the one registered last for it, through any number of frees and allocations |
| CoapCallbacks.StepCalls | cc2530/contiki_os/apps/er-coap-07/er-coap-07-transactions.c:97-199 | A step calls a handler for a transaction exactly if it ends that transaction on a block with that callback |
| CoapAnswers.AnswerExact | cc2530/contiki_os/apps/er-coap-07/er-coap-07-transactions.c:156-183 | An answer frees exactly the first block on the list with its message id, takes it off the list and calls its callback |
| CoapAnswers.NotAnswered | cc2530/contiki_os/apps/er-coap-07/er-coap-07-transactions.c:169-183 | An answer to no transaction on the list does nothing |
| CoapAnswers.AnswerToNew | cc2530/contiki_os/apps/er-coap-07/er-coap-07-transactions.c:77-95 | A new transaction is the one that an answer to its message id ends, unless an older one has that id |
| CoapAnswers.AnsweredSilent | cc2530/contiki_os/apps/er-coap-07/er-coap-07-transactions.c:77-199 | After any run and in every continuation, nothing is sent, waited for or called for an answered transaction |
| CoapTimer.CheckSends | cc2530/contiki_os/apps/er-coap-07/er-coap-07-transactions.c:185-199 | One turn of the timer process sends exactly the blocks on the list whose timer has run out, up to the first that is given up, in the order of the list, and leaves the others alone |
| CoapTransactions.RemovedAt | cc2530/contiki_os/apps/er-coap-07/er-coap-07-transactions.c:157-167 | Taking a block off the list removes its first occurrence only |
| CoapTransactions.TransactionLayer.NewTransaction | cc2530/contiki_os/apps/er-coap-07/er-coap-07-transactions.c:77-95 | Allocation in place takes the first free block and appends it to the list |
| CoapTransactions.TransactionLayer.SendTransaction | cc2530/contiki_os/apps/er-coap-07/er-coap-07-transactions.c:97-154 | Sending in place: new state and events as specified |
| CoapTransactions.TransactionLayer.CheckTransactions | cc2530/contiki_os/apps/er-coap-07/er-coap-07-transactions.c:185-199 | The timer loop in place: new state and events as specified |
| CoapTransactions.TransactionLayer.ClearTransaction | cc2530/contiki_os/apps/er-coap-07/er-coap-07-transactions.c:156-167 | Freeing in place: the block keeps its contents |
| CoapTransactions.TransactionLayer.OnAnswer | cc2530/contiki_os/apps/er-coap-07/er-coap-07-engine.c:236-248 | An acknowledgement frees its transaction before the callback is called |
| AntelopeLogic.ErrorExact | cc2530/contiki_os/apps/antelope/lvm.c:165-298 | A condition evaluates to MATH_ERROR if and only if one of its divisions is by zero, wherever it is: connectives do not short-circuit |
| AntelopeArithmetic.EvaluateEquation | cc2530/contiki_os/apps/antelope/lvm.c:165-298 | Compiling and executing `x op y = c` on values that do not overflow gives TRUE exactly when the numbers solve the equation: x is c - y, x is c + y, c is y taken x times, or x is c times y plus a remainder |
| AntelopeArithmetic.DifferenceLaw | cc2530/contiki_os/apps/antelope/lvm.c:193-216 | Adding the right side back to a difference gives the left side, also when the difference wraps around |
| AntelopeArithmetic.SumLaw | cc2530/contiki_os/apps/antelope/lvm.c:193-216 | A sum grows by one with its right side, from the highest long to the lowest |
| AntelopeArithmetic.ProductLaw | cc2530/contiki_os/apps/antelope/lvm.c:193-216 | A product grows by the left side when the right side grows by one |
| AntelopeArithmetic.QuotientLaw | cc2530/contiki_os/apps/antelope/lvm.c:193-216 | Quotient times divisor plus a remainder that is smaller than the divisor and has the sign of the dividend is the dividend |
| AntelopeArithmetic.QuotientUnique | cc2530/contiki_os/apps/antelope/lvm.c:193-216 | No other number has that property |
| AntelopeArithmetic.ComparisonLaws | cc2530/contiki_os/apps/antelope/lvm.c:221-298 | Equal and unequal, less and not less, greater and not greater exclude each other, and less is greater with the sides exchanged |
| AntelopeBytecode.LongRoundTrip | cc2530/contiki_os/apps/antelope/lvm.c:129-163 | A long operand in the bytecode reads back as the same long |
| AntelopeVm.LogicVm.Execute | cc2530/contiki_os/apps/antelope/lvm.c:379-404 | Executing the prefix encoding of a formula consumes it exactly and returns its value, or MATH_ERROR |
| AntelopeVm.LogicVm.EvalLogic | cc2530/contiki_os/apps/antelope/lvm.c:221-298 | The recursive evaluator of connectives and comparisons returns the value of the formula at the instruction pointer |
| AntelopeVm.LogicVm.EvalExpr | cc2530/contiki_os/apps/antelope/lvm.c:165-219 | The recursive evaluator of expressions returns the value in 32-bit arithmetic |
| AntelopeVm.LogicVm.DeriveRelation | cc2530/contiki_os/apps/antelope/lvm.c:582-687 | Range derivation from the bytecode is that of the formula |
| AntelopeVm.LogicVm.ShiftForOperator | cc2530/contiki_os/apps/antelope/lvm.c:329-348 | The shift opens a gap of two bytes and moves the rest unchanged, or reports an error and changes nothing when there is no room or nothing behind the position |
| AntelopeRanges.RangesSound | cc2530/contiki_os/apps/antelope/lvm.c:496-693 | If derivation succeeds, variables are on the left, and the branches of each OR constrain the same variables, every assignment that satisfies the condition lies in the derived ranges |
| AntelopeRanges.ConjunctionExact | cc2530/contiki_os/apps/antelope/lvm.c:496-537 | For pure conjunctions without an overflowing constant the ranges are exactly the satisfying assignments |
| AntelopeRanges.DisjunctionExact | cc2530/contiki_os/apps/antelope/lvm.c:539-580 | For the disjunction of two conjunctions the ranges are sound if and only if each variable that one side alone derives is unconstrained there, or the other side has no assignment |
| AntelopeRanges.MirroredExact | cc2530/contiki_os/apps/antelope/lvm.c:582-687 | With the constant on the left the derived range is sound if and only if the operator is equality or the constant leaves nothing or everything |
| AntelopeRanges.ConstantsExact | cc2530/contiki_os/apps/antelope/lvm.c:582-687 | For two constants the range derived, for the variable numbered by the low byte of the right one, is sound if and only if the comparison is false or the range is that of all longs |
| AntelopeClauses.SoundExactly | cc2530/contiki_os/apps/antelope/lvm.c:496-693 | For every condition on which derivation succeeds, nested connectives and constants on either side included, the derived ranges are sound if and only if each clause of its disjunctive normal form is empty or inside them |
| AntelopeClauses.ClausesExact | cc2530/contiki_os/apps/antelope/lvm.c:496-693 | Those clauses are satisfied by exactly the assignments that satisfy the condition |
| AntelopeClauses.DerivedExactly | cc2530/contiki_os/apps/antelope/lvm.c:582-687 | Ranges are derived exactly for conditions without a negation in which every comparison has two plain operands, one of them a constant, is not for inequality, and has a variable number that there is room for |
| AntelopeParser.WhereParser.ParseWhere | cc2530/contiki_os/apps/antelope/aql-parser.c:402-447 | The code emitted for a chain of comparisons is the prefix encoding of its right-nested formula |
| AntelopeParser.WhereParser.ParseLink | cc2530/contiki_os/apps/antelope/aql-parser.c:413-441 | One round: the connective goes in front of the comparison parsed last, and the next comparison follows |
| AntelopeParser.WhereParser.ParseComparison | cc2530/contiki_os/apps/antelope/aql-parser.c:350-400 | A comparison is emitted as operator, left side, right side |
| AntelopeParser.WhereParser.ParseExpr | cc2530/contiki_os/apps/antelope/aql-parser.c:290-348 | An operand, or two with an operator that is shifted in front of them |
| AntelopeParser.WhereParser.InsertOperator | cc2530/contiki_os/apps/antelope/aql-parser.c:325-344 | Shift, operator and return to the end put two bytes in front of the code emitted from a position on |
| AntelopeParser.EvaluateWhere | cc2530/contiki_os/apps/antelope/aql-parser.c:402-447 | From tokens to value: what is compiled and executed gives the value of the right-nested formula, and MATH_ERROR if and only if one of its divisions is by zero |
| AntelopeParser.ChainDecision | cc2530/contiki_os/apps/antelope/aql-parser.c:402-447 | Read from the left, the first true comparison before OR or false one before AND decides the condition: AND does not bind tighter than OR |
| AntelopeGrouping.GroupingExact | cc2530/contiki_os/apps/antelope/aql-parser.c:402-447 | Grouping to the right and the reading in which AND binds tighter agree for all truth values if and only if no AND stands in front of an OR |
| AntelopeGrouping.ChainValue | cc2530/contiki_os/apps/antelope/aql-parser.c:402-447 | Without a division by zero a condition evaluates to the right-grouped value of the truth values of its comparisons |
| AntelopeGrouping.UsualMeaning | cc2530/contiki_os/apps/antelope/aql-parser.c:402-447 | So a condition in which no AND stands in front of an OR has its usual meaning |
| AntelopeGrouping.UnusualMeaning | cc2530/contiki_os/apps/antelope/aql-parser.c:402-447 | The condition 0 = 1 AND 0 = 1 OR 0 = 0 evaluates to false |
| AntelopeSelect.BinarySearch | cc2530/contiki_os/apps/antelope/index-inline.c:104-151 | On a strictly increasing column the search leaves the relation if and only if it is empty or the target is below the first value; otherwise it stops at the target, at its insertion point or one before, and an exact search fails if and only if the value is absent |
| AntelopeSelect.WindowCovers | cc2530/contiki_os/apps/antelope/index-inline.c:153-181 | The two searches cover every value of the range, with at most one extra row at each end |
| AntelopeSelect.Selection.RangeSearch | cc2530/contiki_os/apps/antelope/index-inline.c:153-181 | Both searches in place; a failure shows only in the start because the error code is lost in an unsigned result |
| AntelopeSelect.Selection.GetNext | cc2530/contiki_os/apps/antelope/index-inline.c:201-227 | The iteration gives the cached start and then the following rows up to the cached end |
| AntelopeSelect.Selection.GetNextTuple | cc2530/contiki_os/apps/antelope/index.c:299-325 | Stopping early on a unique attribute loses nothing |
| AntelopeSelect.Selection.SelectIndex | cc2530/contiki_os/apps/antelope/relation.c:630-672 | The last indexed attribute with a derived range is chosen |
| AntelopeSelect.WiderChosen | cc2530/contiki_os/apps/antelope/relation.c:646-662 | In a relation with two indexed attributes the range of all natural longs is searched although the other range has one value |
| AntelopeSelect.Selection.Process | cc2530/contiki_os/apps/antelope/relation.c:734-870 | One call examines one row and returns it if it satisfies the condition |
| AntelopeSelect.Selection.IndexTuple | cc2530/contiki_os/apps/antelope/relation.c:756-771 | The first call searches the index, later ones step through its rows; it says when the rows have ended and when the search has left the relation |
| AntelopeSelect.WindowComplete | cc2530/contiki_os/apps/antelope/relation.c:734-870 | For a trusted condition the rows between the two stops have every match |
| AntelopeSelect.SimplyTrusted | cc2530/contiki_os/apps/antelope/relation.c:734-870 | A condition with variables on the left whose alternatives constrain the same variables is trusted |
| AntelopeSelect.AbsentValue | cc2530/contiki_os/apps/antelope/relation.c:756-771 | An equality search that finds nothing loses no row |
| AntelopeSelect.Select | cc2530/contiki_os/apps/antelope/relation.c:674-870 | Run to its end, a selection with a trusted condition or without a usable index returns what a plain scan returns; it reads behind the relation if and only if the range of the chosen attribute starts below the first value |
| AntelopeInverse.RowsDivided | cc2530/contiki_os/apps/antelope/relation.c:816-823 | The rows of a scan, of the scan with inverse logic, and those on which the condition divides by zero are all rows, each once |
| AntelopeInverse.InverseNegates | cc2530/contiki_os/apps/antelope/relation.c:816-823 | A scan with inverse logic gives the rows of a scan with the negated condition |
| AntelopeJoin.JoinHandle.Process | cc2530/contiki_os/apps/antelope/relation.c:962-1056 | One call joins the next pair, or ends the join, or reports an index entry without a row; a call after the end starts over |
| AntelopeJoin.Join | cc2530/contiki_os/apps/antelope/relation.c:962-1056 | However the calls are split, the rows are those of the pairs that the index gives for the left rows in order, each once; it finishes if and only if the index refers to existing rows only |
| AntelopeJoin.PairsExact | cc2530/contiki_os/apps/antelope/relation.c:978-1050 | With an index that gives exactly the matching right tuples the pairs are those of the nested-loop join |
| AntelopeJoin.PairsOrdered | cc2530/contiki_os/apps/antelope/relation.c:978-1050 | They come in the order of the left relation and none comes twice |
| AntelopeJoin.JoinedRow | cc2530/contiki_os/apps/antelope/relation.c:1033-1043 | Joined on all attributes, a row is the left row followed by the right one |
| Maxheap.RangeClosed | cc2530/contiki_os/apps/antelope/index-maxheap.c:416-445 | Node 2^k - 1 + j is assigned the j-th of the 2^k equal parts of the key space |
| Maxheap.ChildRanges | cc2530/contiki_os/apps/antelope/index-maxheap.c:416-445 | A split gives the two proper halves of the parent range |
| Maxheap.RangeWidth | cc2530/contiki_os/apps/antelope/index-maxheap.c:78 | No range within the heap looks like an empty node |
| MaxheapTree.FindBelow | cc2530/contiki_os/apps/antelope/index-maxheap.c:262-292 | In a heap in shape, the find loop below a node ends at the child for the key, if there is one |
| MaxheapTree.VisitedAtDepth | cc2530/contiki_os/apps/antelope/index-maxheap.c:691-707 | The path that a lookup records has every present node that contains the key, at its depth |
| MaxheapTree.RootPathSound | cc2530/contiki_os/apps/antelope/index-maxheap.c:691-707 | Every node it records is on the path of the key |
| MaxheapTree.ScanReaches | cc2530/contiki_os/apps/antelope/index-maxheap.c:225-260 | The insertion scan finds the slot of a child whose parent is present |
| MaxheapTree.SplitAddsChildren | cc2530/contiki_os/apps/antelope/index-maxheap.c:416-445 | A bucket split stores exactly the two children of the node |
| MaxheapTree.WithChildrenShape | cc2530/contiki_os/apps/antelope/index-maxheap.c:416-445 | After it the tree is in shape: siblings both present or both empty, every node with its range |
| MaxheapTree.SplitWithoutRoom | cc2530/contiki_os/apps/antelope/index-maxheap.c:416-445 | At the lowest level a split changes nothing and fails |
| MaxheapIndex.InsertKeeps | cc2530/contiki_os/apps/antelope/index-maxheap.c:447-492 | Every insertion keeps the shape, every pair on the path of its hash, and adds exactly its pair or, if it fails, nothing |
| MaxheapAccept.AcceptedExactly | cc2530/contiki_os/apps/antelope/index-maxheap.c:447-492 | A pair is accepted if and only if the last usable bucket on the path of its key has room, or is full and above the lowest level of usable buckets |
| MaxheapAccept.AcceptedSomewhere | cc2530/contiki_os/apps/antelope/index-maxheap.c:447-492 | There always is such a bucket |
| MaxheapIndex.Reached | cc2530/contiki_os/apps/antelope/index-maxheap.c:447-492 | In every heap reachable from an empty one the buckets hold exactly the accepted pairs |
| MaxheapIndex.EmptyHeapOk | cc2530/contiki_os/apps/antelope/index-maxheap.c:494-585 | A new index is in order and empty |
| MaxheapIndex.LookupExact | cc2530/contiki_os/apps/antelope/index-maxheap.c:668-750 | The first lookup of a key finds a value if and only if a pair with that key was accepted |
| MaxheapIndex.HitInserted | cc2530/contiki_os/apps/antelope/index-maxheap.c:668-750 | Whatever a lookup returns was inserted under the key |
| MaxheapIndex.NoSlotTwice | cc2530/contiki_os/apps/antelope/index-maxheap.c:668-750 | Successive lookups move strictly upwards or onwards: no slot is returned twice |
| MaxheapStore.HeapIndex.HeapInsert | cc2530/contiki_os/apps/antelope/index-maxheap.c:225-260 | The insertion scan in place |
| MaxheapStore.HeapIndex.HeapFind | cc2530/contiki_os/apps/antelope/index-maxheap.c:262-292 | The find loop in place |
| MaxheapStore.HeapIndex.BucketSplit | cc2530/contiki_os/apps/antelope/index-maxheap.c:416-445 | The split in place |
| MaxheapStore.HeapIndex.BucketLoad | cc2530/contiki_os/apps/antelope/index-maxheap.c:351-392 | Loading a bucket fills a cache line and finds the first free slot again |
| MaxheapStore.HeapIndex.InsertItem | cc2530/contiki_os/apps/antelope/index-maxheap.c:447-492 | Insertion in place is insertion into the tree of pairs |
| MaxheapStore.HeapIndex.SearchUp | cc2530/contiki_os/apps/antelope/index-maxheap.c:709-739 | The search loop in place finds what the search of the specification finds |
| MaxheapStore.HeapIndex.GetNext | cc2530/contiki_os/apps/antelope/index-maxheap.c:668-750 | A lookup in place, first or resumed, with the iteration state it leaves |
| DelugeExact.RoundSafeExactly | cc2530/contiki_os/apps/deluge/deluge.c:397-579 | An update round is safe in every run, with every complete page and every acceptable packet of the new version holding the new content, if and only if at its start no request left from the old version asks for a packet that the update changes, and every packet of the new version has the new bytes or, with no node left at the old version, a wrong checksum |
| DelugeNetwork.EveryRunSafe | cc2530/contiki_os/apps/deluge/deluge.c:225-579 | Without such requests and packets every run is safe |
| DelugeNetwork.RunKeeps | cc2530/contiki_os/apps/deluge/deluge.c:225-579 | Every run keeps the invariant on nodes and messages |
| DelugeNetwork.StepKeeps | cc2530/contiki_os/apps/deluge/deluge.c:581-615 | Every step of the network keeps it |
| DelugeNetwork.PacketKeeps | cc2530/contiki_os/apps/deluge/deluge.c:430-497 | Receiving a packet keeps it: a page is marked complete only with all packets of its version |
| DelugeNetwork.ProfileKeeps | cc2530/contiki_os/apps/deluge/deluge.c:523-579 | So does a profile, which opens the pages that changed |
| DelugeNetwork.RequestKeeps | cc2530/contiki_os/apps/deluge/deluge.c:397-428 | So does a request |
| DelugeExact.StaleRequestBreaks | cc2530/contiki_os/apps/deluge/deluge.c:397-428 | A leftover request for a changed packet leads to a run in which a packet of the new version is sent with the old bytes and a matching checksum |
| DelugeExact.UpdatePossible | cc2530/contiki_os/apps/deluge/deluge.c:239-579 | From every start some run brings a node of the old version to the new one |
| DelugeExact.TransferPage | cc2530/contiki_os/apps/deluge/deluge.c:239-497 | Some run transfers any page from a serving node to a fetching one |
| DelugeExact.SendPage | cc2530/contiki_os/apps/deluge/deluge.c:346-428 | Some run has a serving node send every packet of any page that another node asks for |
| DelugeExact.CorruptionBreaks | cc2530/contiki_os/apps/deluge/deluge.c:430-497 | A packet of the new version with a wrong checksum and wrong bytes leads to a run in which a node completes its page at the new version with wrong bytes: the check comes after the bytes have replaced those received before |
| DelugeExact.DamageBreaks | cc2530/contiki_os/apps/deluge/deluge.c:430-497 | So does, for the safety of the round, any packet of the new version that breaks the condition |
| DelugeNode.DelugeObject.HighestAvailablePage | cc2530/contiki_os/apps/deluge/deluge.c:225-237 | The length of the prefix of complete pages |
| DelugeNode.DelugeObject.SendRequest | cc2530/contiki_os/apps/deluge/deluge.c:239-266 | The request for the missing packets of the receiving page, in place |
| DelugeNode.DelugeObject.TransmitPage | cc2530/contiki_os/apps/deluge/deluge.c:346-395 | The requested packets of a page in order, in place |
| DelugeNode.DelugeObject.ReceiveProfile | cc2530/contiki_os/apps/deluge/deluge.c:523-579 | The profile handler in place |
| DelugeNode.DelugeObject.ReceivePacket | cc2530/contiki_os/apps/deluge/deluge.c:430-497 | The packet handler in place |
| DelugeNode.DelugeObject.ReceiveRequest | cc2530/contiki_os/apps/deluge/deluge.c:397-428 | The request handler in place |
| DelugeCrc.DamagedPacketDropped | cc2530/contiki_os/apps/deluge/deluge.c:430-497 | A packet whose payload was hit by a burst of at most sixteen bits, an odd number of wrong bits or two wrong bits leaves pages, file and both versions of the node as they were |
| DelugeCrc.DamageChangesCrc | cc2530/contiki_os/core/lib/crc16.c:44-75 | Such damage changes the checksum of the payload |
| DelugeCrc.AdjacentDamage | cc2530/contiki_os/core/lib/crc16.c:44-75 | Differences inside two adjacent bytes are such damage |
| DelugeCrc.PayloadCrcUpdates | cc2530/contiki_os/core/lib/crc16.c:44-75 | The checksum of Deluge is that of the serial line, started at zero |
| DelugeRequests.AllRequestsServed | cc2530/contiki_os/apps/deluge/deluge.c:346-428 | After several requests for a page exactly the packets of it are sent that one of them, or an earlier one that is still open, asks for |
| DelugeRequests.ProfileOnce | cc2530/contiki_os/apps/deluge/deluge.c:523-579 | A profile that was handled, and any older one, changes nothing more |
| DelugeRequests.ProfileLosesNothing | cc2530/contiki_os/apps/deluge/deluge.c:523-579 | A profile takes away no page that it has no newer version of, and no bytes |
| DelugeRequests.SummaryExact | cc2530/contiki_os/apps/deluge/deluge.c:290-344 | A summary makes a node fetch exactly when it announces a page of the version of the node that the node lacks |
| DelugeRequests.SentOnce | cc2530/contiki_os/apps/deluge/deluge.c:346-428 | What was sent is not sent again, and the next request for the page is served with what it asks for |
| DelugeRequests.AsksTwice | cc2530/contiki_os/apps/deluge/deluge.c:239-266 | A node that gets no answer asks twice and then waits for the next summary |
| CodepropNetwork.RunSafeExactly | cc2530/contiki_os/apps/codeprop/codeprop.c:201-357 | Over any loss, repetition and reordering, the received bytes are a prefix of the image throughout the run, and only complete images are started, if and only if every new program that reaches a waiting receiver does so with a packet whose data are the first bytes of its image |
| CodepropNetwork.StepExact | cc2530/contiki_os/apps/codeprop/codeprop.c:201-357 | For one step: it keeps the invariant if its packet is such a one, and is unsafe if not |
| CodepropNetwork.OrderlyRunsSafe | cc2530/contiki_os/apps/codeprop/codeprop.c:201-357 | In particular every run is safe in which new programs reach waiting receivers with their first packet first |
| CodepropNetwork.StepKeeps | cc2530/contiki_os/apps/codeprop/codeprop.c:201-357 | Every such step keeps the invariant on sender, packets and receivers |
| CodepropNetwork.TakeKeeps | cc2530/contiki_os/apps/codeprop/codeprop.c:311-329 | Taking the packet at the expected address extends the prefix |
| CodepropNetwork.FirstPacketExact | cc2530/contiki_os/apps/codeprop/codeprop.c:290-329 | What a waiting receiver makes of the first packet it sees is a prefix if and only if the data could be the first bytes: the NACK clears the address in the packet itself |
| CodepropNetwork.LossMisleads | cc2530/contiki_os/apps/codeprop/codeprop.c:290-329 | Losing the first packet of a program is a run that is safe if and only if the second packet has the same bytes as the first |
| CodepropProgress.TransferPossible | cc2530/contiki_os/apps/codeprop/codeprop.c:201-357 | From every state that a run leads to, with a receiver in the middle of the program that is being sent, some run completes it: the receiver starts what it had and the rest of the image behind it |
| CodepropProgress.SafeCompleted | cc2530/contiki_os/apps/codeprop/codeprop.c:201-357 | In a safe state that is the whole image |
| CodepropOnce.StartedOnce | cc2530/contiki_os/apps/codeprop/codeprop.c:276-357 | In every run a node starts each program at most once, and no older one after a newer |
| CodepropOnce.GapRepaired | cc2530/contiki_os/apps/codeprop/codeprop.c:245-329 | A packet from further on makes the receiver ask for its own address, and the sender goes back to it |
| CodepropOnce.StartRepeated | cc2530/contiki_os/apps/codeprop/codeprop.c:245-309 | A waiting receiver that meets a new program in the middle makes the sender start again |
| Codeprop.CodeReceiver.OnPacket | cc2530/contiki_os/apps/codeprop/codeprop.c:276-357 | The receiving thread in place, with the answer built in the packet buffer |
| Codeprop.CodeReceiver.TakePacket | cc2530/contiki_os/apps/codeprop/codeprop.c:311-329 | One round of the receiving loop in place |
| Codeprop.CodeSender.SendData | cc2530/contiki_os/apps/codeprop/codeprop.c:201-225 | The next packet of the image and the new address |
| Crc16Errors.BurstDetected | cc2530/Programador Arduino/programador_C/src/Comunicacao.h:36-57 | Two different messages that differ in a burst of at most sixteen bits never have the same checksum, whatever their length and wherever the burst |
| Crc16Errors.AdjacentBytes | cc2530/Programador Arduino/programador_C/src/Comunicacao.h:36-57 | In particular messages that differ only inside two adjacent bytes |
| Crc16Errors.OddErrorsDetected | cc2530/Programador Arduino/programador_C/src/Comunicacao.h:36-57 | Nor do messages that differ in an odd number of bits |
| Crc16Errors.LeadingZeroDetected | cc2530/Programador Arduino/programador_C/src/Comunicacao.h:36-57 | A zero byte in front of a message changes its checksum |
| Crc16Period.TwoErrorsExact | cc2530/Programador Arduino/programador_C/src/Comunicacao.h:36-57 | Two wrong bits are missed if and only if their distance is a multiple of 32767 |
| Crc16Period.TwoErrorsDetected | cc2530/Programador Arduino/programador_C/src/Comunicacao.h:36-57 | So in messages of at most 4095 bytes any two wrong bits change the checksum |
| Crc16Period.PeriodExact | cc2530/Programador Arduino/programador_C/src/Comunicacao.h:41-55 | The register comes back after n shifts if and only if n is a multiple of 32767 |
| Crc16Period.PowerDoubled | cc2530/Programador Arduino/programador_C/src/Comunicacao.h:41-55 | The word after twice as many shifts is an additive function of the word, its square |
| Crc16Errors.ResidueExact | cc2530/Programador Arduino/programador_C/src/Comunicacao.h:36-77 | Running the checksum over a message and two more bytes gives zero if and only if they are its checksum, low byte first |
| Crc16Errors.FeedLinear | cc2530/Programador Arduino/programador_C/src/Comunicacao.h:41-55 | The checksum register is linear in its start and the message bits together |
| Crc16Errors.FeedInjective | cc2530/Programador Arduino/programador_C/src/Comunicacao.h:41-55 | For a fixed message the register is an injective function of its start |
| Crc16Errors.ShortFeed | cc2530/Programador Arduino/programador_C/src/Comunicacao.h:41-55 | At most sixteen bits that take the empty register to zero are all zero |
| Crc16Errors.ShiftParity | cc2530/Programador Arduino/programador_C/src/Comunicacao.h:44-54 | A shift keeps the parity of the register |
| Crc16.ShiftLinear | cc2530/Programador Arduino/programador_C/src/Comunicacao.h:44-54 | A shift is linear |
| Crc16.ShiftUndone | cc2530/Programador Arduino/programador_C/src/Comunicacao.h:44-54 | A shift can be undone |
| Crc16.UpdateBits | cc2530/Programador Arduino/programador_C/src/Comunicacao.h:36-57 | Byte by byte and bit by bit give the same register |
| Crc16.Crc16Cal | cc2530/Programador Arduino/programador_C/src/Comunicacao.h:36-57 | The nested loops compute the checksum |
| SerialFraming.FrameRoundTrip | cc2530/Programador Arduino/programador_C/src/Comunicacao.h:99-142 | A frame of data of any length that fits sixteen bits is received as it was sent, whatever follows |
| SerialFraming.DamageDetected | cc2530/Programador Arduino/programador_C/src/Comunicacao.h:67-142 | A frame whose data or checksum has a burst of at most sixteen wrong bits, or an odd number of them, is refused |
| SerialFraming.DecodeBody | cc2530/Programador Arduino/programador_C/src/Comunicacao.h:67-142 | A frame is accepted if and only if the checksum over data and checksum is zero |
| SerialFraming.AcceptedExactly | cc2530/Programador Arduino/programador_C/src/Comunicacao.h:110-142 | Data are accepted if and only if their frame arrives |
| SerialFraming.PartWaits | cc2530/Programador Arduino/programador_C/src/Comunicacao.h:110-142 | While a frame has not arrived completely the receiver waits |
| SerialFraming.OtherTypeRefused | cc2530/Programador Arduino/programador_C/src/Comunicacao.h:110-142 | A frame of another type is refused, and nothing else is refused as one |
| SerialFraming.SendData | cc2530/Programador Arduino/programador_C/src/Comunicacao.h:60-65 | Sending a frame byte by byte |
| SerialFraming.ReceiveData | cc2530/Programador Arduino/programador_C/src/Comunicacao.h:110-142 | Receiving a frame byte by byte, with every way to fail |
| JsonRoundTrip.RoundTrip | cc2530/contiki_os/apps/json/jsonparse.c:111-186 | Tokenizing a printed tree gives one token for each of its parts in preorder, without an error and ending at depth 0, if and only if it is an object without negative numbers whose strings can be scanned, in which no value of a pair ends in an empty container, and which the stack can hold |
| JsonTokens.TokensInjective | cc2530/contiki_os/apps/json/jsonparse.c:111-186 | Trees with the same tokens are the same |
| JsonTokens.OutcomeDetermines | cc2530/contiki_os/apps/json/jsonparse.c:111-186 | So what the tokenizer makes of a printed tree that survives determines the tree: printing and tokenizing lose nothing |
| JsonTokens.EscapeInjective | cc2530/contiki_os/apps/json/jsontree.c:66-79 | Different strings are printed differently |
| JsonLayout.SpaceBetween | cc2530/contiki_os/apps/json/jsonparse.c:89-98 | Spaces and line feeds put into any text between two calls, not at its end, change nothing: neither the tokens in front of them nor the outcome of all further calls |
| JsonLayout.LayoutsAgree | cc2530/contiki_os/apps/json/jsonparse.c:89-186 | If some text is tokenized to its end, every text of the same tokens with any spaces and line feeds in front of each gives these tokens again, provided that none of them is empty and no number stands directly behind another |
| JsonLayout.ReadableLayouts | cc2530/contiki_os/apps/json/jsonparse.c:89-186 | So a readable object is read back from any layout of its tokens |
| JsonLayout.SpacedPair | cc2530/contiki_os/apps/json/jsonparse.c:89-98 | A space behind a colon is no token |
| JsonBrackets.BracketsMatch | cc2530/contiki_os/apps/json/jsonparse.c:111-186 | In every text that is tokenized to its end each closing bracket closes the innermost open one, of its kind, and at depth 0 all are closed |
| JsonBrackets.RenderPrinted | cc2530/contiki_os/apps/json/jsontree.c:130-213 | The printed text of a tree is its tokens with a line feed behind opening brackets and commas and before closing ones |
| JsonRoundTrip.ParseMinus | cc2530/contiki_os/apps/json/jsonparse.c:177-185 | The digits of a negative number are read without their sign, behind an empty token |
| JsonRoundTrip.ParseValue | cc2530/contiki_os/apps/json/jsonparse.c:111-186 | Anywhere inside a tree: the tokens of a value exactly if it is readable there, with the stack as it was |
| JsonRoundTrip.ParseFrom | cc2530/contiki_os/apps/json/jsonparse.c:111-186 | The same for the rest of a container from any child on |
| JsonRoundTrip.ScanExact | cc2530/contiki_os/apps/json/jsonparse.c:59-87 | The scan of a printed string stops behind its closing quotation mark if and only if no backslash takes a quotation mark |
| JsonRoundTrip.RootFails | cc2530/contiki_os/apps/json/jsonparse.c:111-186 | Arrays, strings and numbers at the root are not read back |
| JsonRoundTrip.ReadableLevels | cc2530/contiki_os/apps/json/jsontree.c:140-185 | A tree that the stack of the tokenizer can hold fits the stack of the printer |
| JsonRoundTrip.PrintAndTokenize | cc2530/contiki_os/apps/json/jsontree.c:130-213 | The stepwise printer followed by the tokenizer gives the tokens of a readable object |
| JsonPrinter.PrintTree | cc2530/contiki_os/apps/json/jsontree.c:103-213 | Printing step by step ends after a fixed number of calls and prints the recursive rendering |
| JsonPrinter.PrintRest | cc2530/contiki_os/apps/json/jsontree.c:130-213 | From any state in between the steps print what is left, as many as the measure says, and end at depth 0 |
| JsonPrinter.JsonContext.PrintNext | cc2530/contiki_os/apps/json/jsontree.c:130-213 | Each step prints the next piece of the rendering and lowers the number of remaining steps by one |
| JsonPrinter.JsonContext.WriteString | cc2530/contiki_os/apps/json/jsontree.c:66-79 | A string in quotation marks with its quotation marks escaped |
| JsonPrinter.JsonContext.WriteInt | cc2530/contiki_os/apps/json/jsontree.c:81-101 | The decimal digits of an integer through a buffer of ten |
| JsonTree.DigitsNumber | cc2530/contiki_os/apps/json/jsontree.c:81-101 | The digits printed for a number read back as that number |
| JsonParser.JsonState.Next | cc2530/contiki_os/apps/json/jsonparse.c:111-186 | One call in place is one step of the automaton: token, text, stack, error |
| JsonParser.JsonState.AtomicString | cc2530/contiki_os/apps/json/jsonparse.c:59-77 | The scanning loop for strings |
| JsonParser.Tokenize | cc2530/contiki_os/apps/json/jsonparse.c:111-186 | All calls until the text or the stack ends |

## Left out

- CoapParser.MessageParser.ParseMessage: reads behind the end of the datagram give the outcome Overrun instead of a value, because the memory behind the buffer is not part of the model.
- CoapDiscovery.Handle: positions are unbounded, not 16-bit `size_t`; listings of 64 KiB and more are not modelled. The filter string has no zero character.
- CoapTransactions: what a callback itself does to the pool while the timer loop runs, the removal of observers, and time between restarts of the timer (only the intervals are modelled).
- Proxy-Uri in the round trip: the parser refuses it, so a message with one never survives; its serialization is modelled.
- The option bitmap is a set of numbers; the shift of the bitmap by 32 or more for unknown options is not modelled. The more flag of Block1 is a truth value.
- AntelopeParser.WhereParser.ParseWhere: covers conditions without parentheses whose sides have at most one operator; with two operators or parentheses the shift positions do not give the infix meaning. The variable table is given, and malformed conditions are not modelled.
- AntelopeVm.LogicVm.Execute: runs on encodings of formulas; byte strings that are not are outside the model. Floats and strings are left out, and `int` and `long` have the same width.
- AntelopeArithmetic.SumLaw: an overflowing sum, difference, product or quotient of longs, which C leaves open, wraps around.
- AntelopeVm.LogicVm.ShiftForOperator: a gap that ends one byte behind the code, which the check of the room lets through, is excluded, because the memory behind the code is not part of the model.
- AntelopeSelect.Select: two selections at the same time, which share the static range cache, calls after the end, aggregates, storage errors and the decoding of attribute values; an inverse selection (REMOVE) is covered only without an index.
- AntelopeJoin.Join: the index is any function from values to tuple identifiers; storing the result relation and storage errors are left out.
- MaxheapIndex.NoSlotTwice: insertions between lookups, a restart of the system, and the enumeration of all values of a key: the slot position is not reset between buckets, so later lookups may miss values.
- DelugeNetwork.EveryRunSafe: timers are steps that may happen at any time, allocation never fails, a page is four packets of 64 bytes, object identifiers are not checked, and a round keeps the number of pages.
- CodepropNetwork.OrderlyRunsSafe: each node is either sender or receiver, an upload happens only when the sender is idle, program identifiers do not wrap around, and the start event is handled before the next packet.
- SerialFraming.ReceiveData: the buffer has room for the longest frame, and the header, which the checksum does not cover, is not protected.
- JsonPrinter.PrintTree: callback values, and the lowest 32-bit integer, which cannot be negated; child counts are unbounded instead of eight bits wide.
- UDP, TCP, radio, file system and EEPROM drivers are byte sequences and message sets; random numbers and the key transformation are parameters.
- er-coap-03, the memory hash index, the other CoAP header accessors, and the parts of AQL other than conditions are left out.
