# Verified model of the WalletLite core

This project models, and proves properties of, the parts of the wallet whose correctness does not
hang on the toolkit or the network:

- **Base16/32/64 codec** (`CyoEncode.c`, `CyoDecode.c`, `src/fc/crypto/base32.cpp`). `BaseXX`
  defines encoding and decoding block by block, once for the three bases; `CyoEncode` and
  `CyoDecode` are the C loops over buffers, proved to compute these functions. `BaseXXBits` states
  the encodings as RFC 4648 does, on one big-endian string of bits, and proves that encoder and
  decoder compute just that. `BaseXXTables` ties the tables to the RFC's alphabets and test vectors,
  and `BaseXXBlocks` says from the symbols how a decoding ends. `BaseXXRoundTrip` and `BaseXXCanonical` prove both round trips and say
  exactly how far the validators and the decoders agree. `Base32String` adds `size_t` lengths and
  the string functions built on the codec.
- **Transaction funding** (`achainlightwalletapi.cpp`). `Funding` has the withdrawal loop, proved
  against a closed form (a waterfall over the positive balances), and the whole transfer;
  `FundingProperties` proves exact cover, absence of overdraft and per-asset conservation, each with
  its exact condition; `Amount` proves the conversion of a typed amount exact, and `TypedTransfer`
  joins the two: the units typed arrive and cost the fee.
- **Request queues** (`datamgr.cpp`, `frame.cpp`, `trackmgr.cpp`). `BalanceQueue` and `TrackQueue`
  are event-driven protocols: a state machine over the events the toolkit delivers, a class whose
  methods are proved to take exactly the machine's steps, and invariants of every run. What a step
  does is said once more on the events alone (`BalanceQueueHistory`, `TrackQueue.StepIs`), so that
  the histories in the invariants are what the events asked for.
- **Asset list** (`assetslistmodel.cpp`). `Pivot` regroups balances by asset, `AssetItems` builds
  the heap objects, `AssetsList` is the model with its display list, `DisplayList` and
  `AssetsProperties` relate announcements, clicks and figures to a full recomputation. `NameOrder`
  is the order of names that maps and sorts go by.
- **Voted delegates** (`datamgr.cpp`, `delegatespage.cpp`) and **decimal printing** (`misc.cpp`,
  `quotationlistdelegate.cpp`): `VoteDelegates`, `DecimalPrinter`. `Wrappers` holds the option type.

## Where the code does less than one would expect

Each of these is a result of the proofs, with a lemma for the exact condition and one at a concrete
input.

- The base32 validator passes 2 or 5 pads, on which the decoder's asserts fail, and the base32 and
  base64 decoders take '=' inside a string (`DecodesIffLegal`; `PassedButAborts`,
  `DecodesButRefused`).
- A positive last balance is asked for whatever is still missing, even more than it holds
  (`NoOverdraftIff`, `TransferConserves`; `SingleUnitOverdrawn`).
- The check on the number of decimals relies on a conversion that is out of range from 19 decimals
  on (`PrecisionAcceptedIff`; `NineteenDecimalsAccepted`).
- Deleting an account while its balance query waits for a retry ends automatic refreshing until the
  user refreshes (`StallsIff`; `DeletionStalls`).
- Clicking a voted delegate twice restores the votes and the pages, but saves the record shown, not
  the one removed (`TwoClicks`; `SecondClickRenews`).
- Negative price changes of less than 9.5 millionths print as "-0", while positive ones of the same
  size print their digits, down to 9.5 billionths (`NegativeNotSearched`, `SearchExhausted`;
  `SameSizeOtherSign`).

## Model

| member | source | states |
|---|---|---|
| BaseXX.LetterValue | CyoEncode.c:91-91 | the decoder's table undoes the encoder's table, the pad entry included |
| BaseXXTables.LetterIsAlphabet | CyoEncode.c:91-91 | the encoder's letter of value n is the n-th character of the RFC's alphabet |
| BaseXXTables.ValueIsAlphabet | CyoDecode.c:172-189 | the decoder's table has n exactly for the n-th character of the alphabet and, in base 16 and 32, its lower-case form; the pad value exactly for '=' where the base pads; and 0xFF for all other bytes |
| BaseXXTables.EncodeSpells | CyoEncode.c:98-195 | as characters, the symbols of an encoding are the alphabet's for the groups of bits, and then '=' |
| BaseXXTables.DecodeIgnoresCase | CyoDecode.c:172-189 | strings that differ in the case of base 16 or base 32 letters only decode alike |
| BaseXXTables.Vectors | CyoEncode.c:98-195 | the test vectors of section 10 of RFC 4648, one for each length of a last block |
| CyoEncode.EncodeInto | CyoEncode.c:51-85 | for each base the encoder stores the encoding of the input and a terminator, returns the number of symbols, and leaves the rest of the buffer alone |
| CyoEncode.Base32Groups | CyoEncode.c:130-158 | the fall-through switch on a block of 1 to 5 bytes yields the 5-bit groups of the zero-extended block |
| CyoEncode.Base32Block | CyoEncode.c:160-191 | the padding switch and the eight stores yield the block's symbols |
| CyoEncode.Base64Groups | CyoEncode.c:233-252 | the fall-through switch on a block of 1 to 3 bytes yields the 6-bit groups of the zero-extended block |
| CyoEncode.Base64Block | CyoEncode.c:254-277 | the padding switch and the four stores yield the block's symbols |
| CyoEncode.EncodeLength | CyoEncode.c:35-38 | an encoding with its terminator fills exactly the announced length, in whole blocks |
| CyoDecode.Validate | CyoDecode.c:37-72 | the validator returns 0 exactly for whole blocks of the form letters then at most the maximal number of pads, -1 for partial blocks, -2 otherwise |
| CyoDecode.Lookup | CyoDecode.c:218-247 | a byte of 0x80 or more spoils its block; otherwise the values are the table's |
| CyoDecode.Check | CyoDecode.c:249-256 | letters in the first two places, letters or pads in the others |
| CyoDecode.Padding | CyoDecode.c:266-288 | an assert fails exactly if the 7th and 8th symbols are pads and the 6th is not, or the 4th, 5th, 6th and 8th are and the 3rd is not; otherwise the checks drop the bytes the padding stands for |
| CyoDecode.DecodeTurn | CyoDecode.c:224-288 | one turn of a decoder's loop is the block function |
| CyoDecode.DecodeInto | CyoDecode.c:201-294 | for each base the decoder stores exactly the bytes of the decoding, also when it gives up or aborts half-way, and returns 0 for errors |
| CyoDecode.DecodeLength | CyoDecode.c:74-81 | a completed decoding stores exactly the announced length and reports less than that |
| CyoDecode.NoLengthIff | CyoDecode.c:74-81 | the announced length is zero exactly for partial blocks |
| BaseXXBlocks.RejectedIff | CyoDecode.c:249-256 | a block is an error exactly if a symbol is neither letter nor pad or a pad stands in one of the first two places |
| BaseXXBlocks.AssertFailsIff | CyoDecode.c:266-288 | the asserts fail on exactly two patterns of pads in a readable base 32 block |
| BaseXXBlocks.KeptIff | CyoDecode.c:266-288 | a good block loses a byte for each pad in places 8, 6, 5, 3 of base 32, or 4, 3 of base 64, up to the first of them that holds none |
| BaseXXBlocks.FirstBadBlockDecides | CyoDecode.c:201-294 | a decoding completes with the bytes that count if all blocks are good, and else ends as its first bad block says |
| BaseXXBlocks.TextErrors | src/fc/crypto/base32.cpp:6-13 | partial blocks and symbols out of place give the empty vector, a failed assert stops the program |
| BaseXXBits.EncodeIsReference | CyoEncode.c:98-195 | symbol k of every encoding is the letter of the k-th group of the input's bit string, and '=' after the input's bits (sections 4, 6 and 8 of RFC 4648) |
| BaseXXBits.DecodeIsReference | CyoDecode.c:201-294 | byte q of every completed decoding is the q-th octet of the symbols' bit string, pads reading as zeros |
| BaseXXRoundTrip.RoundTrip | CyoDecode.c:331-398 | for every input, decoding its encoding trips no assert, reports its length, and stores it followed by zeros only |
| BaseXXRoundTrip.BlockRoundTrip | CyoDecode.c:224-288 | the same for one block, short ones included |
| BaseXXCanonical.WellFormedDecodes | CyoDecode.c:37-72 | on what the validator passes the decoder completes exactly for the legal padding counts, with the size they say, and aborts otherwise |
| BaseXXCanonical.DecodesIffLegal | CyoDecode.c:201-294 | completing with all padding at the end is the same as being letters and then a legal number of pads |
| BaseXXCanonical.Base16Agrees | CyoDecode.c:118-164 | base16 strings validate exactly when they decode to the end |
| BaseXXCanonical.PassedButAborts | CyoDecode.c:266-283 | a string with two pads that the base32 validator passes and the decoder's assert stops |
| BaseXXCanonical.DecodesButRefused | CyoDecode.c:366-390 | a base64 string with inner padding that decodes and does not validate |
| BaseXXCanonical.EncodeIsCanonical | CyoEncode.c:98-195 | every encoding is well-formed, in the encoder's alphabet, legally padded, its unused bits zero |
| BaseXXCanonical.CanonicalRoundTrip | CyoDecode.c:201-294 | encoding what a canonical string decodes to gives the string back |
| BaseXXCanonical.ReencodesIffCanonical | CyoDecode.c:201-294 | a string that decodes is given back by the encoder exactly if it is canonical (section 3.5 of RFC 4648) |
| BaseXXCanonical.EncodeIsBijective | CyoEncode.c:208-283 | encoding is one-to-one onto the canonical strings |
| Base32String.EncodeLengthFits | CyoEncode.c:35-38 | in unsigned arithmetic the encoder's length is right exactly when the true length fits |
| Base32String.DecodeLengthFits | CyoDecode.c:74-81 | in unsigned arithmetic the decoder's length is always right |
| Base32String.DecodeLengthCovers | CyoDecode.c:74-81 | a buffer of the decoder's length for an n-byte encoding holds n bytes and the terminator |
| Base32String.ToBase32 | src/fc/crypto/base32.cpp:15-24 | the string form is the encoding without the terminator |
| Base32String.FromBase32 | src/fc/crypto/base32.cpp:6-13 | the vector holds the decoded bytes, and nothing on errors |
| Base32String.TextRoundTrips | src/fc/crypto/base32.cpp:6-24 | the two functions undo each other, in one direction always, in the other exactly on canonical strings |
| Funding.WithdrawFrom | achainlightwalletapi.cpp:131-161 | the loop with its skips, special last entry and early exits draws from each entry its closed-form share: what it holds or what the entries before leave open, all of that for the last; no int64 overflow |
| Funding.WalletTransferToAddress | achainlightwalletapi.cpp:83-168 | nothing if a check of the typed amount fails, and else the operations of a transfer of the amount it is turned into, in order, with the native fee of 1000 and the sub-account record |
| Funding.AccountSplit | achainlightwalletapi.cpp:206-225 | a receiver of 66 or more characters is split before its last 32, and recorded unless these are all 'f'; a shorter one is paid itself |
| Funding.PlainReceiver | achainlightwalletapi.cpp:209-213 | a receiver of fewer than 66 characters is the account paid, with no sub-account |
| Funding.SplitJoined | achainlightwalletapi.cpp:206-225 | an account and a sub-account appended to it are split where they were joined, and recorded unless the sub-account is the one that stands for none |
| Funding.NativeBalances | datamgr.cpp:1192-1207 | only balances of asset 0 are handed on, in order |
| Funding.NativeOfParts | datamgr.cpp:1192-1207 | what is handed on of a list is what is handed on of its parts, in order |
| FundingProperties.TotalDrawn | achainlightwalletapi.cpp:131-161 | the draws add up to the need if it is covered, and to all positive balances otherwise |
| FundingProperties.DrawsInOrder | achainlightwalletapi.cpp:131-161 | draws go down the list, once per entry, from positive balances, and all but the last drain theirs |
| FundingProperties.DrawsPositive | achainlightwalletapi.cpp:131-161 | every draw is positive when the need is |
| FundingProperties.NoneSkipped | achainlightwalletapi.cpp:131-161 | no positive balance is passed over for a later one |
| FundingProperties.NoOverdraftIff | achainlightwalletapi.cpp:138-142 | no entry is overdrawn exactly if the positive balances suffice or the last entry is not positive |
| FundingProperties.SingleUnitOverdrawn | achainlightwalletapi.cpp:138-142 | a balance of one unit is asked for 1001 |
| FundingProperties.FundedIff | achainlightwalletapi.cpp:131-161 | a positive need is met in full without overdraft exactly if the positive balances reach it |
| FundingProperties.TransferNetOut | achainlightwalletapi.cpp:112-163 | what a transfer takes of each asset beyond what it deposits |
| FundingProperties.OperationsAt | achainlightwalletapi.cpp:112-163 | each operation of a transfer in its place: the other asset from the payer's slate 0, a native withdrawal for each draw with payer, asset and slate of its entry, and the deposit |
| FundingProperties.NeedIs | achainlightwalletapi.cpp:119-134 | the native units needed are 1000, and the amount if it is native |
| FundingProperties.TransferConserves | achainlightwalletapi.cpp:112-163 | a transfer, native or not, costs exactly 1000 units of asset 0 and nothing else, exactly if the need is covered |
| FundingProperties.TypedTransfer | achainlightwalletapi.cpp:83-168 | a typed amount of at most five decimals passes the checks, is deposited in full to the unit, to the receiver itself if that is a plain account, and costs the payer exactly 1000 units if and only if the need is covered |
| Amount.PrecisionAcceptedIff | achainlightwalletapi.cpp:101-107 | the check passes exactly for at most 5 decimals, or from 19 on if the out-of-range conversion comes out small |
| Amount.NineteenDecimalsAccepted | achainlightwalletapi.cpp:101-107 | a text with 19 decimals passes where the conversion yields the least int64 |
| Amount.NoAmountIff | achainlightwalletapi.cpp:101-108 | a text gives no amount exactly if it has 6 to 18 decimals, more of them where the conversion does not come out small, or std::stod throws |
| Amount.NearestUnits | achainlightwalletapi.cpp:108-109 | with exact double operations any text, negative ones included, gives the nearest number of units to what std::stod reads |
| Amount.UnitsOfText | achainlightwalletapi.cpp:98-109 | digits, a point and at most five digits denote whole part times 100000 plus decimals, by place value |
| Amount.UnitsOfValue | achainlightwalletapi.cpp:98-99 | the units of an amount text are its value times 100000 |
| Amount.AmountExact | achainlightwalletapi.cpp:108-109 | parsing, scaling, adding a half and flooring give exactly the units typed, with three roundings of relative error 2^-53, up to 2^53/7 units (section 4.3.1 of IEEE 754-2008) |
| Amount.TypedUnits | achainlightwalletapi.cpp:98-109 | with a library and a processor correctly rounded on ordinary sizes, check and conversion together give the units typed |
| BalanceQueue.DataMgr.StartQueryBalance | datamgr.cpp:508-543 | an idle manager requests the head, or drops it if it is no account |
| BalanceQueue.DataMgr.WalletAccountBalance | datamgr.cpp:496-501 | the name is queued, then an idle manager tries the head |
| BalanceQueue.DataMgr.GetAccountInfo | frame.cpp:237-264 | a refresh asks for the names of the page one by one and stops the timer, unless a query is under way or there is no account |
| BalanceQueue.DataMgr.QueryBalanceHttpFinished | datamgr.cpp:545-597 | an answer is stored and takes the head off; then completion, with Frame's reaction to it, or the retry timer |
| BalanceQueue.DataMgr.QueryBalanceHttpError | datamgr.cpp:605-619 | forgets the reply and arms the retry timer |
| BalanceQueue.DataMgr.DeliverFailure | datamgr.cpp:545-619 | error followed by finished amounts to the failure alone |
| BalanceQueue.DataMgr.DelayQueryBalance | datamgr.cpp:599-603 | lowers the flag and tries the head |
| BalanceQueue.DataMgr.OnWalletAccountBalance | frame.cpp:753-764 | the completion signal reloads the accounts and starts the refresh timer |
| BalanceQueueProperties.EveryRun | datamgr.cpp:496-619 | in every run: the flag is up exactly while one reply or one timer is pending, the reply is for the queue's head, answers are stored under the account asked for, and resolved names followed by the queue are all names submitted, in order |
| BalanceQueueHistory.EveryRunHistory | datamgr.cpp:496-619 | in every run the names resolved and queued are, in order, the names its events asked for, and the data base holds exactly the answers received, each as it came, for the account it was asked for |
| BalanceQueueHistory.AskingIs | frame.cpp:237-264 | the whole state after an enqueued name or a refresh: all names are queued, and an idle manager drops the heads that are no accounts, at most one per name, and requests the first that is |
| BalanceQueueHistory.ReplyIs | datamgr.cpp:545-619 | the whole state after a reply, good, empty or failed |
| BalanceQueueHistory.TimerIs | datamgr.cpp:599-603 | the whole state after the retry timer |
| BalanceQueueProperties.StepKeepsInv | datamgr.cpp:496-619 | every single event keeps this invariant |
| BalanceQueueProperties.CompletionIff | datamgr.cpp:588-592 | the completion signal fires exactly when an answer empties the queue, and leaves the timer running and nothing in flight |
| BalanceQueueProperties.StallsIff | frame.cpp:237-264 | exactly two events end automatic refreshing until the user refreshes: a retry whose head was deleted while the timer is off, and a refresh none of whose tries meets an account |
| BalanceQueueProperties.EveryRegisteredRun | frame.cpp:237-264 | while queued accounts stay registered the refresh timer is off only during a query, and every name is answered or queued |
| BalanceQueueProperties.DeletionStalls | datamgr.cpp:519-523 | a run of four events after which nothing is running or pending |
| BalanceQueueProperties.NeverStuck | datamgr.cpp:496-619 | from every reachable state with a query under way and registered names, a run of at most two events per name answers them all in order, fires the completion signal once and restarts the refresh timer |
| TrackQueue.TrackMgr.SendTrackDataToServer | trackmgr.cpp:118-143 | an idle manager with messages posts the head |
| TrackQueue.TrackMgr.SendTrackData | trackmgr.cpp:104-116 | completes the message with user, address and platform, queues it, and then tries to post |
| TrackQueue.TrackMgr.RequestTrackFinished | trackmgr.cpp:145-157 | acknowledges the head, if there is a reply, and arms the timer |
| TrackQueue.TrackMgr.RequestTrackError | trackmgr.cpp:159-167 | forgets the reply and arms the timer |
| TrackQueue.TrackMgr.DeliverFailure | trackmgr.cpp:145-167 | error followed by finished amounts to the failure alone |
| TrackQueue.EveryRun | trackmgr.cpp:104-167 | in every run, with any number of timers: at most one post is out, it is the queue's head, acknowledged messages followed by the queue are all messages submitted, in order, and waiting messages are never forgotten |
| TrackQueue.EveryMessageKept | trackmgr.cpp:104-167 | in every run the messages acknowledged, followed by the queue, are the messages its events submitted, in order |
| TrackQueue.StepIs | trackmgr.cpp:104-167 | the whole state after each event |
| TrackQueue.OnlySuccessRemoves | trackmgr.cpp:145-167 | only a good reply takes a message off the queue, namely the one posted |
| TrackQueue.NeverStuck | trackmgr.cpp:118-167 | from every reachable state a run of at most two events per message gets all waiting messages through |
| Pivot.BuildAssetMap | assetslistmodel.cpp:48-87 | the nested loops fold all balances that are not dust into the map |
| Pivot.EntriesOfParts | assetslistmodel.cpp:56-64 | the balances of a list of accounts are those of its parts, in order |
| Pivot.RegroupHolds | assetslistmodel.cpp:60-86 | the map has an asset and account exactly if some balance that is not dust does, with the sum of those |
| Pivot.SumByAccount | assetslistmodel.cpp:112-136 | summing within accounts and then over them is summing over all balances |
| AssetItems.SortByName | assetslistmodel.cpp:43-46 | a rearrangement in name order, ties in any order |
| NameOrder.LessIff | assetslistmodel.cpp:43-46 | a name is less than another exactly if it is a proper prefix of it or has the smaller character where they first differ |
| AssetItems.BuildChildren | assetslistmodel.cpp:112-136 | one child per account with its balance and price, and their sums |
| AssetItems.BuildItem | assetslistmodel.cpp:89-140 | a head over its sorted children, with the sum of their balances and prices |
| AssetItems.SortedAlready | assetslistmodel.cpp:143-143 | sorting the items, which come in map order, leaves them in place |
| AssetsList.BuildItems | assetslistmodel.cpp:89-141 | one item per asset of the map, collapsed as remembered, and the total of their prices |
| AssetsList.AssetsListModel.ShowItem | assetslistmodel.cpp:168-188 | one turn of the loop appends the item's rows, counts their height, and marks the last child |
| AssetsList.AssetsListModel.RefreshList | assetslistmodel.cpp:162-191 | the display list is the flattening of the items, its height 50 per head and 32 per shown child |
| AssetsList.AssetsListModel.Collapse | assetslistmodel.cpp:208-230 | a click keeps the model valid; on a head it toggles that item, remembers its new flag and no other, and the one announcement is true of the change of the recomputed list; elsewhere it changes nothing |
| AssetsList.AssetsListModel.SetAccountInfo | assetslistmodel.cpp:48-146 | a rebuild makes the model valid for the regrouped balances, gives every item the remembered flag, collapsed if there is none, totals the prices, and without any memory shows the heads alone |
| AssetsList.FieldsAreFigures | assetslistmodel.cpp:94-138 | the fields of the items and their children are the figures the properties speak of |
| DisplayList.AllCollapsed | assetslistmodel.cpp:162-191 | with all items collapsed the list is the heads, 50 high each |
| DisplayList.ToggleDescribed | assetslistmodel.cpp:208-230 | toggling changes the recomputed list by exactly the announced rows, the item's children below its head, and the height by 32 each |
| DisplayList.RowOwner | assetslistmodel.cpp:210-210 | every display row is the head or a child of some item, heads at the place the items before leave |
| AssetsProperties.RowsMatchAccounts | assetslistmodel.cpp:48-146 | a row exists exactly if some account has a balance that is not dust; it shows what all accounts hold, which is the sum of its children, and these are the accounts that hold some |
| AssetsProperties.RowsShowAccounts | assetslistmodel.cpp:48-146 | said of the accounts: a row exists exactly if some account has a balance of at least 0.0000001 of the asset, it shows the sum of these and its worth, and its children show the same for each name of an account that has one |
| AssetsProperties.ClicksByParity | assetslistmodel.cpp:215-216 | after any clicks an item is turned around exactly if it was clicked an odd number of times |
| VoteDelegates.Delegates.constructor | datamgr.cpp:425-434 | loading makes the cache agree with the table, in ascending order |
| VoteDelegates.Delegates.IsVoteDelegate | datamgr.cpp:467-476 | whether the id is in the list |
| VoteDelegates.Delegates.SaveVoteDelegateAccount | datamgr.cpp:436-451 | adds a new account to list and table, and refuses a known id |
| VoteDelegates.Delegates.DeleteVoteDelegateAccount | datamgr.cpp:453-465 | takes an id out of list and table |
| VoteDelegates.Delegates.OnCheckboxClicked | delegatespage.cpp:64-81 | toggles the id in list and table, saving the record shown; after a removal on the tab of supported delegates it requests exactly the ids of the old page, clamped to the last, and otherwise leaves the page alone |
| VoteDelegates.Delegates.GoToSupportedPage | delegatespage.cpp:123-149 | clamps the page and requests exactly the ids of its slice of ten |
| VoteDelegates.SortVoteDelegateAccount | datamgr.cpp:478-486 | the same accounts in ascending order of id |
| VoteDelegates.CacheDetermined | datamgr.cpp:425-465 | only one list agrees with a table |
| VoteDelegates.TwoClicks | delegatespage.cpp:64-81 | two clicks on an id restore the ids in order and every page's request; they restore the list exactly if the id was not voted for or the record saved is the one removed |
| VoteDelegates.SecondClickRenews | delegatespage.cpp:76-77 | a delegate with new votes comes back with them |
| VoteDelegates.ToggleAllByParity | delegatespage.cpp:64-81 | after any clicks the votes depend on their parity alone |
| VoteDelegates.PagesCover | delegatespage.cpp:123-149 | the pages together are the list, all full but the last |
| DecimalPrinter.DoubleToStr | misc.cpp:51-74 | the loop trims the cut rendering |
| DecimalPrinter.PrintedDigits | misc.cpp:51-74 | the whole part is printed untouched, then the decimals kept without trailing zeros, without the point if there are none |
| DecimalPrinter.PrintedWithoutPoint | misc.cpp:53-56 | a text without a point, like "nan", is printed as it is |
| DecimalPrinter.PrintsTruncation | misc.cpp:51-74 | the decimals printed denote the six rendered ones cut off after the fifth |
| DecimalPrinter.QuotationDoubleToStr | quotationlistdelegate.cpp:27-55 | the recursion ends at the first precision that does not print "0", or at the last one |
| DecimalPrinter.PrintsZeroIff | misc.cpp:51-74 | at precision p a number prints as "0" exactly if it is from zero to below 9.5 units of the p-th decimal, and as "-0" exactly if it is negative and as small |
| DecimalPrinter.SearchExhausted | quotationlistdelegate.cpp:49-52 | the search returns "0" exactly for the numbers from zero to below 9.5 units of the ninth decimal |
| DecimalPrinter.NegativeNotSearched | quotationlistdelegate.cpp:49-52 | a negative number is never searched past the sixth decimal, and "-0" is returned exactly for negative numbers of less than 9.5 units of it |
| DecimalPrinter.SameSizeOtherSign | quotationlistdelegate.cpp:27-55 | 0.00000001 is searched to the ninth decimal and prints there in full; for -0.00000001 the search ends at the sixth with "-0" |

## Left out

- NULL-pointer branches of the codec, and source and destination being the same buffer: arrays are non-null and distinct.
- The code tables are given as functions by ranges of symbols, not as 128-entry arrays.
- The three encoder loops and the three decoder loops, which differ only in their block, are each written once over the base.
- Amount.AmountOf: std::stod is a parameter that may fail; texts other than plain decimal numbers, of which it accepts some, are turned into whatever it says.
- Funding.WalletTransferToAddress: the amount and its sum with the native fee must be int64, as conversion and addition are undefined otherwise; addresses are names, the address of a withdraw condition is the triple it is computed from, and checks inside Transaction, signing, expiry and slates are not part of this model.
- CallContract, key handling, hashing, JSON and the network: they depend on code or sources of randomness outside this model.
- BalanceQueue: an answer is an already parsed document; summing duplicate coins in an answer and the choice of the next refresh interval are not modelled, and error and finished of one reply are delivered together.
- BalanceQueue.DataMgr.GetAccountInfo: also updates the transaction list of the bill page, which has no effect on the queue.
- TrackQueue: login and heartbeat differ only in the kind of message they submit.
- Amounts of the asset list are real numbers; rounding of doubles is not modelled.
- AssetsList.AssetsListModel.SetAccountInfo: deleting the old items is not modelled, only that they are no longer in the list.
- AssetsList.AssetsListModel.Collapse: the announcement is the method's result; the order in which the toolkit wants it relative to the change is not modelled.
- VoteDelegates: the table is a map whose writes succeed; pages of all delegates and texts of labels are not modelled.
- DecimalPrinter: the toolkit's rendering of a number is an input, assumed to be the correctly rounded one with the digits its precision asks for and a sign exactly if the number is negative.
- Widgets, painting, styles, translations, quotation sorting and contact files: no property beyond single bodies.
