# FatCat-Server: a verified model

FatCat-Server is a game server: sessions, bags, trades, monsters and tasks held in memory, changed by message
handlers, and written to PostgreSQL behind their backs. This project models the parts of it that keep state
in agreement with other state, and proves that they do, or exactly when they do.

Every handler is one atomic step. What a handler writes to a socket, a log or a database is left out, except
the journal of goods, whose replay is modelled. Random numbers, damage, distances between monsters and
players, and the order in which an iterator meets the entries of a hash map are parameters, so the results
hold for all of them.

Each component is modelled twice. The handlers and loops of the source are methods of classes, which change
fields and arrays as the source does; each method is proved to change them exactly as a function on values
says. The properties of whole runs are then lemmas about these functions.

The rows of `t_playergoods` are modelled as a table by role and position that refuses an insert where a row
stands; the statement that creates the table is not part of this model. No insert of a run in agreement meets a
row (`BagInserts.RunNoneRefused`), so what the table does with a second row at a position matters only when a
bag is arranged.

| files | component | main results |
|---|---|---|
| Words, Md5Compression, BlockHash, Md5, Md5Instance | md5.cpp | the 64 unrolled macros are the indexed steps of RFC 1321 section 3.4; for every chunking of a message the digest is that of RFC 1321; any run of updates and digests on one object, whatever is buffered |
| Framing | NetWork/tcpconnection.cpp | for every chunking of the stream the frames handed on are those of the whole stream; what a peek at a short header reads cannot matter; the buffer never lacks room; which frames reach the queue |
| GoodsBag, BagEdits, BagOperations, BagAgreement, BagCounts, BagRuns, BagInserts, BagEffects, OperationGoods | OperationGoods/operationgoods.cpp | over every run of picking up, buying, selling and moving, the replayed journal is the bag, every slot in use has one holder, goods and money are conserved; the requests that break this, exactly; what every request adds and takes, stack by stack |
| EquipmentArrangement, BagArrangement, EquipmentArranging, BagArranging, ArrangeBehind, ArrangeEffects | OperationGoods/operationgoods.cpp, `ArrangeBagGoods` | the merge of all vectors conserves pieces, fits the bag and saves a slot exactly when one stack fewer could hold them; exactly when equipment survives, and exactly when the rows do, with changes still waiting in the queue |
| Postgres, WriteBehind, ServerEffects | OperationPostgres, PlayerLogin | however the requests of all players, their trades, the arranging of bags and the writing interleave, each bag is what its rows will be, and each player has what its own requests and swaps have given it |
| Trade, TradeCommit, TradeSafety, TradeRuns, TradeLocks, TradeEffects, TradeDeal, GameInterchange | GameInterchange/gameinterchange.cpp, Game/session.hpp | the protocol over every run of messages, logins, logouts, moves, arranging and business; only the swap moves goods or money, and it is fair; what each message brings about, and that a whole trade goes through exactly when there is room; exactly which messages leave a slot locked |
| Visibility | PlayerLogin/playerlogin.cpp, Game/userposition.hpp | who is seen sees back, a refresh is a full recomputation, and exactly which moves make one |
| MonsterState, MonsterView, Monsters | Monster, GameAttack | hit points over a fight, pace and pursuit, the most hated target, and the clean-up after a death |
| Tasks, GameTask | GameTask/gametask.cpp | the index from goods to tasks agrees with the accepted tasks; quitting undoes asking; an update reaches every aim |

## Where the code does less than it seems to

These are consequences of the code as it is. Each has a lemma that says exactly when it happens, or shows it.

- A digest with 56 or more bytes buffered (total length modulo 64) overwrites them, so a later digest is
  that of other bytes: `BlockHash.DigestIsTransparentExactlyWhen`, `BlockHash.SecondDigestCanDiffer`.
- An update of more than 2^32 - 64 bytes can wrap the block index: `BlockHash.MaxInputIsExact`.
- Headers that announce more than 1016 bytes can fill the read buffer: `Framing.RoomExactlyWhen`.
- Merging a stack into a later one that is not the last journals the wrong stack, and the row of the target
  keeps its old count: `BagRuns.StepAgreesExactlyWhen`, `BagRuns.WrongStackLosesCount`.
- Buying none of some goods the bag lacks leaves their key without a stack; the next purchase of fewer than
  99 is charged and not delivered: `BagCounts.ZeroPurchaseSpoilsTheNext`.
- A purchase whose cost is 2^32 or more is charged modulo 2^32: `BagCounts.PurchaseIsFairExactlyWhen`.
- Equipment picked up by name with a full bag leaves the ground and is lost:
  `BagCounts.PickingConservesExactlyWhen`.
- Arranging takes a piece of equipment for placed when its old slot has just been given out: it keeps the
  slot, next to the piece that has got it, and loses its row. `BagArrangement.ArrangedBagAgreesExactlyWhen`,
  `EquipmentArrangement.SecondPieceIsOvertaken`.
- Arranging deletes the rows of a role past the queue, so changes still waiting can bring rows back, which
  the new inserts then meet: `ArrangeBehind.ArrangingInStepExactlyWhen` for a table that refuses a second row
  at a position, `ArrangeBehind.ArrangingWithoutKeyExactlyWhen` for one that takes it.
- No trade stops the arranging of a bag. It clears the locks of what is on offer, and a stack that has moved
  is then given to the other side and kept: `TradeLocks.ArrangingIsSafeExactlyWhen`,
  `TradeLocks.MovedOfferIsDoubled`, `TradeLocks.ArrangedOfferIsDoubled`.
- A player who asks itself for a trade is its own partner: `TradeLocks.RequestIsSafeExactlyWhen`.
- An answer that names nobody online clears the sender's half of a trade, and so does a rejection that names
  the sender; a rejection that names a role trading with a third player clears half of that trade:
  `TradeLocks.AnswerIsSafeExactlyWhen`.
- Nobody checks the type that a client sends with the goods it offers: another type goes on the list, and with
  the swap into the other bag and its rows, which then do not agree: `TradeLocks.OfferIsSafeExactlyWhen`,
  `TradeLocks.ForgedOfferNeverAgrees`.
- A swap takes a balance past 2^32 modulo that: `TradeRuns.TheSwapIsFair`.
- Unlocking does nothing unless the other side has confirmed (`TradeEffects.UnlockWorksExactlyWhen`).
- Cancelling with the partner gone, rejecting, withdrawing a request, and answering nobody online leave the
  offered slots locked, and withdrawing an offer that was never made locks its slot. No other legal message does:
  `TradeLocks.StepStraysExactlyWhen`, `TradeLocks.TidyRunLeavesNoStrayLock`.
- The start point that decides when a player looks around again follows only x, so one that has moved far in
  y or z looks around at every message (`Visibility.LooksAgainExactlyWhen`).
- The target of a monster need not be the most hated after the monster gives up at the pursuit limit, after
  the target enters or leaves its view, or after the hatred of the target wraps past 2^32:
  `MonsterState.ActHatesMostExactlyWhen`, `MonsterState.EnterViewHatesMostExactlyWhen`,
  `MonsterState.LeaveViewHatesMostExactlyWhen`, `MonsterState.HitHatesMostExactlyWhen`.
- A collect aim whose progress has passed what the bag holds, which is more than is asked, is set to what the
  bag holds and not to what is asked: `Tasks.UpdatedIsMinExactlyWhen`. No run of accepting, quitting and
  gathering gets there: `Tasks.IndexAgreesOverRuns`.

## Model

| member | source | states |
|---|---|---|
| `Words.DecodeEncode` | md5.cpp:300-320 | `decode` after `encode` gives back every array of words |
| `Words.EncodeDecode` | md5.cpp:300-320 | `encode` after `decode` gives back every byte array whose length is a multiple of 4 |
| `Words.EncodeInto` | md5.cpp:300-308 | the loop of `encode` fills the array with the little-endian bytes of the words, low-order byte first |
| `Words.DecodeInto` | md5.cpp:311-320 | the loop of `decode` fills the array with the words whose bytes are given |
| `Md5Compression.MacroIsOperation` | md5.cpp:28-59 | each macro (add, rotate, add) is one operation of RFC 1321 section 3.4: b + ((a + f(b,c,d) + X[k] + T[i]) <<< s) |
| `Md5Compression.FF` | md5.cpp:40-44 | the macro over F: one of steps 1 to 16 of RFC 1321, when its block word, shift and constant are those of the step |
| `Md5Compression.GG` | md5.cpp:45-49 | the macro over G: one of steps 17 to 32 of RFC 1321, when its block word, shift and constant are those of the step |
| `Md5Compression.HH` | md5.cpp:50-54 | the macro over H: one of steps 33 to 48 of RFC 1321, when its block word, shift and constant are those of the step |
| `Md5Compression.II` | md5.cpp:55-59 | the macro over I: one of steps 49 to 64 of RFC 1321, when its block word, shift and constant are those of the step |
| `Md5Compression.Round1` | md5.cpp:214-297 | the 16 unrolled FF calls are the first 16 indexed steps of RFC 1321 section 3.4 |
| `Md5Compression.Round2` | md5.cpp:214-297 | the 16 unrolled GG calls are steps 17 to 32 |
| `Md5Compression.Round3` | md5.cpp:214-297 | the 16 unrolled HH calls are steps 33 to 48 |
| `Md5Compression.Round4` | md5.cpp:214-297 | the 16 unrolled II calls are steps 49 to 64 |
| `Md5Compression.Rounds` | md5.cpp:214-297 | for every block and state the 64 unrolled macro calls equal the indexed step loop of RFC 1321 section 3.4 |
| `Md5Instance.Transform` | md5.cpp:214-297 | decoding, the four rounds and adding the old state is the block function of RFC 1321 |
| `Md5Instance.Rfc1321IsValid` | md5.cpp:103-113 | initial state, block function and encodings of the source meet what the streaming proofs ask of an algorithm |
| `Md5Instance.Hash` | md5.cpp:76-100 | constructing over an input of up to 2^32 - 64 bytes and taking the digest gives the RFC 1321 hash of the input |
| `Md5Instance.WriteState` | md5.cpp:205-206 | the digest written is A, B, C, D, low-order byte of A first |
| `Md5.MD5.constructor` | md5.cpp:71-73 | a new object has been fed nothing |
| `Md5.MD5.Reset` | md5.cpp:103-113 | after `reset` the object has been fed nothing, whatever the buffer still holds |
| `Md5.MD5.AddToCount` | md5.cpp:155-158 | the carry between the two 32-bit words keeps the pair equal to 8 times the bytes fed, modulo 2^64 |
| `Md5.MD5.BufferedBytes` | md5.cpp:152-153 | the index taken from the low count word is the number of buffered bytes |
| `Md5.MD5.Transform` | md5.cpp:214-297 | one call makes the state the fold of the block function over one whole block more |
| `Md5.MD5.TransformBlocks` | md5.cpp:168-169 | the block loop absorbs whole 64-byte blocks until fewer than 64 bytes remain |
| `Md5.MD5.AbsorbBlocks` | md5.cpp:163-170 | filling the buffer and the block loop absorb buffer and input up to the last whole block |
| `Md5.MD5.Update` | md5.cpp:146-178 | keeps state = fold of the block function over the whole blocks, buffer prefix = rest, count = 8 times the length modulo 2^64, with the input appended to what was fed |
| `Md5.MD5.UpdateFile` | md5.cpp:126-140 | reading a file in pieces feeds exactly its contents |
| `Md5.MD5.Pad` | md5.cpp:193-203 | the two updates leave no byte buffered: what was absorbed is the input, the padding and the length; and they tell exactly which buffered bytes they overwrite |
| `Md5.MD5.PadAndEncode` | md5.cpp:193-206 | padding, appending the 64-bit length and encoding the state leave the digest of RFC 1321 sections 3.1 to 3.5 |
| `Md5.MD5.Final` | md5.cpp:183-211 | writes the digest of everything fed, and restores state and count but not the buffer: what the object then holds is `AfterDigest` of what was fed |
| `Md5.MD5.GetDigest` | md5.cpp:94-100 | every call writes the digest of what the object holds, since `final` leaves the finished flag unset |
| `Md5.Perform` | md5.cpp:94-211 | any run of updates and digests on one object yields the digests that the run on byte sequences yields |
| `Md5.CountIsExact` | md5.cpp:155-158 | the 32-bit comparison detects the carry exactly, for every length below 2^32 |
| `Md5.CountIndexes` | md5.cpp:152-153 | low word / 8 modulo 64 is the number of bytes fed modulo 64, also after the count has wrapped |
| `BlockHash.FirstDigest` | md5.cpp:94-178 | for every way of cutting a message into updates the first digest is the hash of the whole message |
| `BlockHash.HarmlessRunsAreTrue` | md5.cpp:94-211 | digests and updates interleave freely as long as no digest but the last is taken with 56 or more bytes buffered: each digest is the hash of everything fed so far |
| `BlockHash.DigestIsTransparentExactlyWhen` | md5.cpp:189-211 | a digest leaves the object as it was exactly when fewer than 56 bytes were buffered, or they are what `final` writes over them |
| `BlockHash.SecondDigestCanDiffer` | md5.cpp:189-211 | after 56 bytes a second digest hashes 56 zeros instead |
| `BlockHash.MaxInputIsExact` | md5.cpp:168-169 | the 32-bit block index can wrap for some buffer fill exactly when one update is longer than 2^32 - 64 bytes |
| `Framing.ParseKeepsBytes` | NetWork/tcpconnection.cpp:167-222 | the frames cut and the remainder are exactly the bytes of the stream, in order |
| `Framing.ParseOfFrames` | NetWork/tcpconnection.cpp:167-222 | frames sent back to back come out as they were sent, with nothing left over |
| `Framing.ParseResumes` | NetWork/tcpconnection.cpp:167-222 | parsing may stop at any byte and resume with the remainder |
| `Framing.ChunkingIsIrrelevant` | NetWork/tcpconnection.cpp:159-224 | for any cutting of any stream into chunks the frames and the remainder are those of the whole stream |
| `Framing.RestIsAtMost519` | NetWork/tcpconnection.cpp:175-221 | when every complete header announces at most 512 bytes, at most 519 bytes wait in the buffer |
| `Framing.RoomExactlyWhen` | NetWork/tcpconnection.cpp:147-221 | the next read has room for every stream exactly when headers are limited to 1016 bytes or less |
| `Framing.Connection.PeekBodyLength` | NetWork/tcpconnection.cpp:174 | a header with all 8 bytes received is read as sent; a shorter one reads arbitrary bytes |
| `Framing.Connection.Deliver` | NetWork/tcpconnection.cpp:182-192 | each frame is routed by the login status and the flag |
| `Framing.Connection.RoutedExactlyWhen` | NetWork/tcpconnection.cpp:182-257 | of any frames each is routed once and in order: to the server queue exactly when a role is logged in by then, to the login handlers exactly when its flag is one that the status so far allows |
| `Framing.Connection.QueuedFromLogin` | NetWork/tcpconnection.cpp:182-257 | when a role is logged in after n frames, the queue gets exactly the frames after those, in order; none when no role ever is |
| `Framing.Connection.KeepFrom` | NetWork/tcpconnection.cpp:212-221 | the unparsed bytes move to the front of the buffer |
| `Framing.Connection.ParseNext` | NetWork/tcpconnection.cpp:174-221 | one round hands on the next frame or ends with the remainder in front, whatever a short header peek has read |
| `Framing.Connection.ParseBuffer` | NetWork/tcpconnection.cpp:163-222 | the loop hands on exactly the frames of the buffered bytes and keeps exactly the remainder |
| `Framing.Connection.ReadSome` | NetWork/tcpconnection.cpp:147-224 | after every read the frames handed on are those of all bytes received, and the buffer holds exactly the remainder |
| `Framing.Connection.ReadStream` | NetWork/tcpconnection.cpp:147-224 | a whole stream with headers of at most 1016 bytes is read in whatever pieces arrive, always with room for the next |
| `GoodsBag.SlotHasOneHolder` | OperationGoods/operationgoods.cpp:51-82 | with bag and rows in agreement a slot is in use exactly when one stack or bag equipment holds it, and only one |
| `GoodsBag.TableIsUnique` | PlayerLogin/playerlogin.cpp:1120-1154 | the bag determines its rows |
| `GoodsBag.ApplyAllConcat` | PlayerLogin/playerlogin.cpp:1120-1154 | changes replay in order, in any number of portions; an update writes the count and nothing else, and an insert where a row stands is refused |
| `BagEdits.EditKeeps` | OperationGoods/operationgoods.cpp:162-271 | each elementary change (new stack, new count, stack gone, stacks exchanged, equipment come or gone), with the row change it journals, keeps stacks, slots and rows in agreement, and no insert meets a row |
| `BagEdits.AgreementSurvivesEdits` | OperationGoods/operationgoods.cpp:162-271 | agreement is a relation that no journalled edit breaks |
| `BagOperations.CountFindsEmpty` | OperationGoods/operationgoods.cpp:51-82 | GetEmptyPosCount counts a slot exactly when GetEmptyPos finds one |
| `BagOperations.CountedSlotsCanBeTaken` | OperationGoods/operationgoods.cpp:51-82 | as many slots as GetEmptyPosCount counts can be taken one after the other without GetEmptyPos failing |
| `BagAgreement.PickUpKeeps` | OperationGoods/operationgoods.cpp:162-271 | picking up goods keeps every relation between bag and rows that journalled edits keep |
| `BagAgreement.AddEquipmentsKeeps` | OperationGoods/operationgoods.cpp:121-159 | so do new pieces of equipment, each in a slot of its own |
| `BagAgreement.BuyAllKeeps` | OperationGoods/operationgoods.cpp:990-1115 | so does buying goods, with the full stacks, the rest in the first stack that can take it, or in a new one |
| `BagAgreement.SellKeeps` | OperationGoods/operationgoods.cpp:784-868 | so does selling a stack or an equipment |
| `BagAgreement.MoveKeeps` | OperationGoods/operationgoods.cpp:518-641 | so does moving between two stacks of the same goods (exchange, refill, merge), unless the wrong stack is journalled |
| `BagCounts.PickUpConserves` | OperationGoods/operationgoods.cpp:162-271 | pieces left on the ground plus pieces in the bag are constant on every path, and the number reported is what the bag gained |
| `BagCounts.PickUpLeavesRest` | OperationGoods/operationgoods.cpp:162-271 | something stays on the ground exactly when no slot is free and the stacks cannot take it all; no stack exceeds 99 |
| `BagCounts.PickingConservesExactlyWhen` | OperationGoods/operationgoods.cpp:274-333 | picking up by name keeps ground and bag together, except that one equipment is lost exactly when there is some and the bag is full; what is picked up is said by `PickingTakesTheFirst` and `PickingStaysOnlyWhenFull` |
| `BagEffects.PickingTakesTheFirst` | OperationGoods/operationgoods.cpp:290-333 | with a free slot, picking up by name takes exactly the first entry of the name off the ground, all of it, and the bag gains its pieces and nothing else |
| `BagEffects.PickingStaysOnlyWhenFull` | OperationGoods/operationgoods.cpp:290-333 | without one, no more than one entry of goods that stack goes, and none only when all stacks of the goods have become full |
| `BagEffects.FullStaysFull` | OperationGoods/operationgoods.cpp:290-333 | full stacks stay full, whatever else of the name lies there |
| `BagEffects.FillPoursInOrder` | OperationGoods/operationgoods.cpp:176-205 | a stack takes in nothing as long as one before it is not full, and only counts change |
| `BagEffects.PickUpPoursThenOpens` | OperationGoods/operationgoods.cpp:162-271 | what the stacks cannot take opens one new stack in the first empty slot, or stays when there is none; goods that the bag lacks are no exception |
| `BagEffects.PickUpPutsEquipment` | OperationGoods/operationgoods.cpp:121-159 | equipment becomes one new piece with the next number in the first empty slot, or nothing with a full bag |
| `BagCounts.PurchaseIsFairExactlyWhen` | OperationGoods/operationgoods.cpp:740-781 | a purchase delivers exactly the count and charges exactly count times price, or changes nothing, unless it goes through with a cost of 2^32 or more |
| `BagCounts.BoughtPieces` | OperationGoods/operationgoods.cpp:990-1115 | a purchase with room delivers exactly the count and keeps the cap of 99, unless the key of the goods is there without a stack |
| `BagEffects.PurchaseIsLaidOut` | OperationGoods/operationgoods.cpp:990-1115 | a purchase that goes through makes as many full stacks as it can, puts the rest into the first stack that can take it or into a new one, and takes an empty slot for every new stack and for nothing else |
| `BagCounts.ZeroPurchaseSpoilsTheNext` | OperationGoods/operationgoods.cpp:1018-1043 | buying nothing of goods the bag lacks leaves their key without a stack; the next purchase below 99 is charged and not delivered |
| `BagCounts.MoveConserves` | OperationGoods/operationgoods.cpp:575-628 | a move changes the number of pieces of no goods and keeps the cap |
| `BagEffects.MoveGoesOver` | OperationGoods/operationgoods.cpp:518-641 | a move is made exactly when neither slot is locked and both hold the goods; a full stack changes places with the other, otherwise as many pieces go over as are asked for and fit, and the slot they came from is released exactly when it is empty |
| `BagCounts.SellTakesOneStack` | OperationGoods/operationgoods.cpp:834-868 | a sale takes away one whole stack, or nothing |
| `BagEffects.SaleTakesOne` | OperationGoods/operationgoods.cpp:784-868 | a sale takes exactly the stack or the piece of equipment it names, releases its slot, and touches nothing else |
| `BagRuns.StepAgreesExactlyWhen` | OperationGoods/operationgoods.cpp:162-1115 | of all picking up, buying, selling and moving, exactly two kinds of request break the agreement of bag and replayed journal: buying nothing of absent goods, and a merge into a later stack that is not the last |
| `BagRuns.StepKeepsCap` | OperationGoods/operationgoods.cpp:162-1115 | no request of any of the kinds takes a stack above 99 |
| `BagRuns.WrongStackDisagrees` | OperationGoods/operationgoods.cpp:596-609 | after a merge that journals the wrong stack the replayed journal is not the bag |
| `BagRuns.WrongStackLosesCount` | OperationGoods/operationgoods.cpp:596-609 | after such a merge the row of the target still has its old count: it lacks exactly the pieces moved |
| `BagRuns.RunAgrees` | OperationGoods/operationgoods.cpp:51-1115 | over every run without those two the replayed journal is the bag, every slot in use has one holder, and no stack exceeds 99 |
| `BagEffects.RequestGains` | OperationGoods/operationgoods.cpp:121-1115 | every request changes the number of pieces of every kind by exactly its gain: all that lies there or fits, all that is bought or nothing, the stack or piece sold |
| `BagEffects.RequestPays` | OperationGoods/operationgoods.cpp:784-1115 | the purse changes by the price of a purchase that shop, purse and bag allow, and by what is paid for a sale, and by nothing else |
| `BagEffects.RunGains` | OperationGoods/operationgoods.cpp:121-1115 | over every sound run the bag ends with what it had and the gains of the requests, of every kind |
| `BagInserts.StepNoneRefused` | PlayerLogin/playerlogin.cpp:1132-1143 | picking up, buying, selling and moving insert rows only where none stands, unless the request is of the two kinds that break the agreement |
| `BagInserts.RunNoneRefused` | PlayerLogin/playerlogin.cpp:1132-1143 | over every such run no insert meets a row, so the journal replays to the bag whatever the table does with a second row at a position |
| `OperationGoods.PlayerGoods.GetEmptyPosCount` | OperationGoods/operationgoods.cpp:51-63 | counts the empty slots of 1 to 64 |
| `OperationGoods.PlayerGoods.GetEmptyPos` | OperationGoods/operationgoods.cpp:66-82 | takes the first empty slot, or returns 0 |
| `OperationGoods.PlayerGoods.FillStacks` | OperationGoods/operationgoods.cpp:176-205 | pours the loot into the stacks one after the other, each up to 99, journalling each |
| `OperationGoods.PlayerGoods.PickUpCommonGoods` | OperationGoods/operationgoods.cpp:162-271 | bag, journal, rest on the ground, reported number and result are those of `PickUpCommon` |
| `OperationGoods.PlayerGoods.AddAll` | OperationGoods/operationgoods.cpp:940-972 | each round takes the next equipment number and the first empty slot, and journals the piece |
| `OperationGoods.PlayerGoods.PickUpEqu` | OperationGoods/operationgoods.cpp:121-159 | a new equipment with the next number in the first empty slot, or nothing when the bag is full |
| `OperationGoods.PlayerGoods.PickUpGoods` | OperationGoods/operationgoods.cpp:290-333 | the loop over the loot for one name changes bag, journal and loot as `PickNamed` says, which takes the first entry (`PickingTakesTheFirst`) |
| `OperationGoods.PlayerGoods.BuyEquipment` | OperationGoods/operationgoods.cpp:928-987 | all pieces or none, each with its own number and slot; charges when it delivers |
| `OperationGoods.PlayerGoods.PlaceRest` | OperationGoods/operationgoods.cpp:1071-1097 | the last, partial stack goes into the first stack that can take it, or a new one |
| `OperationGoods.PlayerGoods.BuyOtherGoods` | OperationGoods/operationgoods.cpp:990-1115 | bag, journal and money are those of `BuyOther`, for goods the bag holds and for new ones |
| `OperationGoods.PlayerGoods.BuyMore` | OperationGoods/operationgoods.cpp:1059-1097 | the loop for goods in the bag: full stacks first, then the rest, round by round as in `BuyStacks` |
| `OperationGoods.PlayerGoods.BuyNew` | OperationGoods/operationgoods.cpp:1018-1043 | the loop for new goods pushes one stack a round, journals it and takes its slot |
| `OperationGoods.PlayerGoods.BuyGoods` | OperationGoods/operationgoods.cpp:740-781 | price and money are checked first; the rest is `BuyGoods` on values |
| `OperationGoods.PlayerGoods.SellGoods` | OperationGoods/operationgoods.cpp:784-868 | the stack or equipment goes, its slot is released and its row deleted |
| `OperationGoods.PlayerGoods.MoveBagGoods` | OperationGoods/operationgoods.cpp:518-641 | exchange, refill or merge as `MoveGoods` says, with what is journalled through the target iterator after the erase |
| `OperationGoods.PlayerGoods.Exchange` | OperationGoods/operationgoods.cpp:575-586 | the stacks exchange their slots, and both rows are journalled |
| `OperationGoods.PlayerGoods.Pour` | OperationGoods/operationgoods.cpp:610-623 | part of the stack goes over, and both counts are journalled |
| `OperationGoods.PlayerGoods.PourOut` | OperationGoods/operationgoods.cpp:596-609 | the emptied stack is erased and its slot released; what is journalled is the stack that the target iterator denotes after the erase |
| `OperationGoods.PlayerGoods.GetThisGoodsCount` | OperationGoods/operationgoods.cpp:872-906 | the number of pieces, or of equipment of the type |
| `BagArrangement.CompactConserves` | OperationGoods/operationgoods.cpp:1186-1240 | merging a vector from both ends terminates and keeps its number of pieces |
| `BagArrangement.CompactStocked` | OperationGoods/operationgoods.cpp:1186-1240 | it keeps every stack between 1 and 99, and gives the stacks consecutive slots |
| `BagArrangement.ArrangedBagConserves` | OperationGoods/operationgoods.cpp:1180-1240 | arranging keeps the pieces of all goods and the cap of 99, never needs more stacks, and equipment only changes positions |
| `ArrangeEffects.MergingSavesExactlyWhen` | OperationGoods/operationgoods.cpp:1186-1240 | merging a vector saves a slot exactly when one stack fewer could hold all its pieces |
| `ArrangeEffects.FullButTheLast` | OperationGoods/operationgoods.cpp:1186-1240 | it keeps the number of stacks only if every stack of the result but the last holds 99 |
| `ArrangeEffects.MergingTakesFromTheLast` | OperationGoods/operationgoods.cpp:1204-1228 | the first stack of the result holds the lesser of 99 and what the first and the last held together; two stacks become one, or a full one and the rest; no vector gets shorter than half |
| `ArrangeEffects.PairsFold` | OperationGoods/operationgoods.cpp:1220-1228 | when any two stacks fit into one, the vector is folded in the middle: half the stacks are left, each with its own pieces and those of the one opposite |
| `ArrangeEffects.ArrangingMerges` | OperationGoods/operationgoods.cpp:1125-1240 | in the arranged bag all this holds of the stacks of every goods |
| `ArrangeEffects.ArrangingGroups` | OperationGoods/operationgoods.cpp:1152-1181 | unless a piece is overtaken, the equipment ends up in the first slots with the pieces of one type side by side |
| `BagArrangement.ArrangedBagAgreesExactlyWhen` | OperationGoods/operationgoods.cpp:1125-1240 | with the rows of the role deleted first, bag, slots and rows agree afterwards exactly when no equipment is overtaken; otherwise two pieces are in one slot and no rows agree with the bag |
| `EquipmentArrangement.PlacingRows` | OperationGoods/operationgoods.cpp:1152-1181 | the two loops over the equipment either overtake a piece, and two end in one slot, or place every piece, with rows and slots in agreement |
| `EquipmentArrangement.PlacingFits` | OperationGoods/operationgoods.cpp:1152-1181 | there is a slot for every piece, and pieces only change positions |
| `EquipmentArrangement.SecondPieceIsOvertaken` | OperationGoods/operationgoods.cpp:1152-1157 | two pieces of different types in each other's places: the second counts as placed, keeps its slot and loses its row |
| `BagArrangement.StacksFit` | OperationGoods/operationgoods.cpp:1180-1240 | the stacks and the equipment of a bag in agreement never need more than the 64 slots |
| `BagArranging.MergeVector` | OperationGoods/operationgoods.cpp:1186-1240 | the loop over one vector, in place, with the end refreshed after the erase, leaves the vector as `Compact` says, which saves a slot whenever it can (`MergingSavesExactlyWhen`) |
| `EquipmentArranging.PlaceGroup` | OperationGoods/operationgoods.cpp:1169-1180 | the inner loop places all pieces of one type |
| `EquipmentArranging.PlaceEquipment` | OperationGoods/operationgoods.cpp:1152-1181 | the loop over the equipment places piece by piece, with all of a type together, and skips a piece whose slot has been given out |
| `BagArranging.ArrangeBagGoods` | OperationGoods/operationgoods.cpp:1125-1240 | slots, equipment and goods, in the order of the iterators, end as the arranged bag, with its stacks and pieces journalled; what is merged and grouped is said by `ArrangingMerges` and `ArrangingGroups` |
| `Postgres.OperationPostgres.PushUpdateGoods` | OperationPostgres/operationpostgres.h:37-41 | a change is queued behind all others |
| `Postgres.OperationPostgres.UpdatePostgresData` | OperationPostgres/operationpostgres.cpp:52-60 | writing never changes what the table will be, and after as many rounds as changes it is that |
| `Postgres.ReplayOfRole` | OperationPostgres/operationpostgres.cpp:52-60 | however changes of several roles interleave in the queue, each role ends with its own changes applied in order |
| `Postgres.QueuedChanges` | PlayerLogin/playerlogin.cpp:1120-1154 | queueing the changes of one role changes the rows to come of that role and of no other |
| `WriteBehind.AnyInterleavingStaysInStep` | OperationPostgres/operationpostgres.cpp:52-60 | however requests, locks, swaps, arranging and the writing of the queue interleave, every bag is what its rows are to be, and what they are once nothing waits |
| `ServerEffects.TableCatchesUp` | OperationPostgres/operationpostgres.cpp:52-60 | from every state in step, after as many rounds of writing as changes wait, every bag is what its rows are |
| `ServerEffects.InterleavingGains` | OperationPostgres/operationpostgres.cpp:52-60 | over every interleaving a player ends with what it had, the gains of its own requests, and what it got less what it gave in swaps; nobody else's doing, no arranging and no writing changes what it has |
| `ServerEffects.EventGains` | GameInterchange/gameinterchange.cpp:472-640 | the same of every single event and every kind of goods and equipment |
| `ServerEffects.RequestPaidByOwn` | OperationGoods/operationgoods.cpp:784-1115 | a request is paid from, or into, the purse of its own player alone |
| `WriteBehind.OwnKeepsAllInStep` | OperationPostgres/operationpostgres.cpp:52-60 | serving one player leaves every player's bag and rows to come in agreement |
| `WriteBehind.SwapRecordsOfRole` | GameInterchange/gameinterchange.cpp:472-640 | of what a swap queues each role gets the changes of its own side, in order |
| `WriteBehind.SwapKeepsAllRelated` | GameInterchange/gameinterchange.cpp:472-640 | a swap, whose changes for both roles are queued in four portions, keeps both sides in step with their rows to come, and everybody else |
| `WriteBehind.ArrangingKeepsAllInStepExactlyWhen` | OperationGoods/operationgoods.cpp:1125-1240 | with the changes of all players in one queue, arranging one bag keeps everybody in step exactly when no equipment is overtaken and what that role has waiting leaves no rows but those of the arranged bag |
| `ArrangeBehind.ArrangingInStepExactlyWhen` | OperationGoods/operationgoods.cpp:1132-1138 | since the arranging deletes rows past the queue, bag and table to come agree afterwards exactly when no equipment is overtaken and the changes still waiting leave no rows but such as the arranged bag has; an insert that meets a row is refused |
| `ArrangeBehind.ArrangingInserts` | OperationGoods/operationgoods.cpp:1152-1240 | what is journalled is one insert for every slot given out, in order of the slots |
| `ArrangeBehind.ArrangingWithoutKeyExactlyWhen` | PlayerLogin/playerlogin.cpp:1120-1154 | the same should the table take several rows at one position: exactly when no equipment is overtaken and the changes still waiting leave no rows at all |
| `TradeCommit.SwapMovesTheOffers` | GameInterchange/gameinterchange.cpp:472-640 | each bag ends with its old stacks less its own offer plus the other side's, counted by goods and stack size, and by pieces |
| `TradeCommit.SwapConservesGoods` | GameInterchange/gameinterchange.cpp:472-640 | the pieces of every goods in the two bags together are unchanged |
| `TradeCommit.SwapGoodsKeeps` | GameInterchange/gameinterchange.cpp:472-640 | with offers that name existing stacks with exact counts at distinct locked slots, and room, bag, slots and journalled rows agree afterwards |
| `TradeCommit.TakeOffersFindsSlots` | GameInterchange/gameinterchange.cpp:547-635 | with room no search for a free slot runs off the end |
| `TradeCommit.SwapMoneyIsExactExactlyWhen` | GameInterchange/gameinterchange.cpp:642-703 | with the money offered there, nothing goes below zero, and each side ends with exactly its own less its offer plus the other's, for every type of money, exactly when that fits 32 bits; also with both offers in the same type and balances down to zero |
| `TradeCommit.SwapMoneyModulo` | GameInterchange/gameinterchange.cpp:642-703 | modulo 2^32 both balances are right in any case |
| `TradeCommit.PayIsExactExactlyWhen` | GameInterchange/gameinterchange.cpp:642-671 | a payment is exact exactly when the payer has the money and the payee's balance stays in 32 bits |
| `TradeSafety.RequestIsSafe` | GameInterchange/gameinterchange.cpp:39-83 | a request keeps links mutual and everything offered backed |
| `TradeSafety.ResponseIsSafe` | GameInterchange/gameinterchange.cpp:86-123 | so does an answer that names the own partner |
| `TradeSafety.OfferMoneyIsSafe` | GameInterchange/gameinterchange.cpp:125-167 | an accepted offer of money is no more than the balance |
| `TradeSafety.OfferGoodsIsSafe` | GameInterchange/gameinterchange.cpp:169-278 | offered slots stay distinct and locked, each holding a stack with the exact count offered, unless the offer is forged |
| `TradeSafety.LockIsSafe` | GameInterchange/gameinterchange.cpp:280-308 | locking keeps the invariant, also when the partner has gone |
| `TradeSafety.UnlockIsSafe` | GameInterchange/gameinterchange.cpp:310-352 | who has confirmed still finds the other side locked |
| `TradeSafety.CheckIsSafe` | GameInterchange/gameinterchange.cpp:354-459 | confirming keeps the invariant in every branch, the swap included |
| `TradeSafety.CommitIsSafe` | GameInterchange/gameinterchange.cpp:401-459 | the swap leaves both sides idle, with bags and rows in agreement |
| `TradeSafety.SwapKeepsCap` | GameInterchange/gameinterchange.cpp:472-640 | no stack exceeds 99 after a swap |
| `TradeSafety.CancelIsSafe` | GameInterchange/gameinterchange.cpp:843-875 | cancelling takes both sides that are connected out of the trade |
| `TradeSafety.CancelRequestIsSafe` | GameInterchange/gameinterchange.cpp:877-901 | withdrawing a request keeps the invariant |
| `TradeRuns.RunIsSafe` | GameInterchange/gameinterchange.cpp:39-901 | over every run of messages, logins, logouts, moves, arranging and business: links of connected partners are mutual, offers are distinct locked stacks with exact counts, money offered is there, who has confirmed finds both sides locked, bags agree with rows, no stack exceeds 99 and no balance 32 bits |
| `TradeRuns.StepIsSafe` | GameInterchange/gameinterchange.cpp:39-901 | every single message, login, logout, move, arranging of a bag that nothing is offered from, and piece of business keeps the invariant |
| `TradeRuns.LogoutIsSafe` | PlayerLogin/playerlogin.cpp:57-108 | a logout in the middle of a trade keeps the invariant: the side that stays has a partner that is not connected, which every handler checks |
| `TradeRuns.BusinessIsSafe` | OperationGoods/operationgoods.cpp:274-281 | picking up, buying and selling are refused during a trade, so nothing offered can be spent meanwhile |
| `TradeRuns.MoveWithinIsSafe` | OperationGoods/operationgoods.cpp:526-530 | moving goods during a trade never touches a stack that is offered |
| `TradeRuns.ArrangingIsSafe` | Game/cmdparse.cpp:265-270 | so does arranging the bag, which no trade stops, for a player who offers nothing |
| `TradeRuns.OnlyTheSwapMovesGoods` | GameInterchange/gameinterchange.cpp:39-901 | no message moves goods or money except a confirmation with both sides locked, the other confirmed, and room |
| `TradeRuns.TheSwapIsFair` | GameInterchange/gameinterchange.cpp:401-703 | that confirmation swaps goods as offered, ends the trade for both, and touches nobody else; it swaps the money of a side as offered exactly when what that side is to have fits 32 bits |
| `TradeDeal.TradeGoesThroughExactlyWhen` | GameInterchange/gameinterchange.cpp:39-640 | two free players who join, offer any lists of stacks they have and money that is covered, lock and confirm, come to the end of the trade: with room on both sides goods and money are swapped as offered, without room both get everything back, and nobody else notices |
| `TradeDeal.AllArePut` | GameInterchange/gameinterchange.cpp:169-278 | all stacks offered one after the other get on the list in their order, every such message is legal and keeps the invariant, and exactly their slots get locked |
| `TradeEffects.AddPutsOnTheList` | GameInterchange/gameinterchange.cpp:169-238 | offering a stack of the bag that is not on offer puts exactly it at the end of the list and locks its slot; nothing else happens to anybody |
| `TradeEffects.AddHasEffectExactlyWhen` | GameInterchange/gameinterchange.cpp:169-238 | an offer has an effect exactly when the stack is in the bag and its slot not on offer already |
| `TradeEffects.RemoveTakesOff` | GameInterchange/gameinterchange.cpp:239-253 | withdrawing an offer on the list leaves no offer of that slot and exactly the other offers, marks the slot as in use, and changes nothing else |
| `TradeEffects.RemoveOthersLeavesTheList` | GameInterchange/gameinterchange.cpp:239-253 | withdrawing what is not on the list leaves the list |
| `TradeEffects.AddThenRemoveRestoresExactlyWhen` | GameInterchange/gameinterchange.cpp:169-278 | offering a stack and withdrawing it restores every session exactly when its slot was in use and not locked |
| `TradeEffects.RemoveThenAddMovesToTheEnd` | GameInterchange/gameinterchange.cpp:169-278 | withdrawing an offer and making it again only moves it to the end of the list |
| `TradeEffects.RequestJoinsExactlyWhen` | GameInterchange/gameinterchange.cpp:39-83 | a request joins two players exactly when both are free: each is the other's partner, with nothing offered, locked or confirmed; otherwise nothing happens |
| `TradeEffects.AnswerEndsExactlyWhen` | GameInterchange/gameinterchange.cpp:86-123 | an accepting answer changes nothing, a rejection takes both out of the trade |
| `TradeEffects.MoneyIsRecordedExactlyWhen` | GameInterchange/gameinterchange.cpp:125-167 | an offer of money that the purse covers is recorded with its type and count in place of an earlier one, any other is ignored |
| `TradeEffects.LockLocks` | GameInterchange/gameinterchange.cpp:280-308 | locking locks the own side and nothing else, and again changes nothing |
| `TradeEffects.UnlockWorksExactlyWhen` | GameInterchange/gameinterchange.cpp:310-352 | unlocking lifts locks and confirmations of both sides exactly when the other side has confirmed, and otherwise does nothing |
| `TradeEffects.FirstConfirmationWaits` | GameInterchange/gameinterchange.cpp:354-400 | the first confirmation is recorded exactly when both sides are locked, and nothing else happens |
| `TradeEffects.NoRoomGivesBack` | GameInterchange/gameinterchange.cpp:401-459 | a second confirmation without room takes both out of the trade, with every offered slot in use again and all other slots, goods and money as they were |
| `TradeEffects.PartnerGoneGivesBack` | GameInterchange/gameinterchange.cpp:125-459 | with the other side gone, an offer of money, locking, unlocking and confirming all end the trade and give everything back |
| `TradeEffects.LogoutUndoesLogin` | PlayerLogin/playerlogin.cpp:57-108 | who logs in is there with its session, and logging out at once restores all sessions and connections |
| `TradeEffects.BusinessIsDoneExactlyWhen` | OperationGoods/operationgoods.cpp:274-281 | business that changes anything is done exactly when the player is not trading |
| `TradeEffects.MoveWithinGoesOver` | OperationGoods/operationgoods.cpp:518-641 | a move during a trade goes over as outside one, and touches only the bag and its rows |
| `TradeLocks.CancelUnlocksExactlyWhen` | GameInterchange/gameinterchange.cpp:843-875 | cancelling unlocks what was offered exactly when the partner is connected or nothing was offered |
| `TradeLocks.CancelUnlocksBoth` | GameInterchange/gameinterchange.cpp:843-875 | with the partner connected, cancelling takes both sides out of the trade, and every slot offered by either is in use again |
| `TradeLocks.LeaveLeavesLocksExactlyWhen` | GameInterchange/gameinterchange.cpp:110-117 | clearing a trade without unlocking, as a rejection does, leaves a slot locked exactly when something was offered |
| `TradeLocks.WithdrawingUnlocksNothing` | GameInterchange/gameinterchange.cpp:877-901 | withdrawing a request takes both connected sides out of the trade and leaves every slot that either has offered locked |
| `TradeLocks.ChangeOfferStraysExactlyWhen` | GameInterchange/gameinterchange.cpp:169-278 | a change of offers leaves a slot locked and not offered exactly when it adds nothing and names a stack not on offer |
| `TradeLocks.StepStraysExactlyWhen` | GameInterchange/gameinterchange.cpp:39-901 | of all legal messages, exactly these leave a slot locked and not on offer: a rejection, a withdrawal, an answer that names nobody online, or a cancelling alone, with something on offer; a change of offers that adds nothing and names a stack in the bag but not on offer; and a bag that comes with locks |
| `TradeLocks.TidyRunLeavesNoStrayLock` | GameInterchange/gameinterchange.cpp:39-901 | over every run without those messages no slot is ever locked that is not on offer |
| `TradeLocks.ArrangingFreesOffers` | OperationGoods/operationgoods.cpp:1143 | arranging a bag in the middle of a trade lets go of the offers unless there are none |
| `TradeLocks.ArrangingIsSafeExactlyWhen` | OperationGoods/operationgoods.cpp:1125-1240 | arranging a bag keeps the trade invariant exactly for a player who offers nothing, when no equipment is overtaken and the changes still waiting leave no rows but those of the arranged bag |
| `TradeLocks.MovedOfferIsDoubled` | GameInterchange/gameinterchange.cpp:472-640 | an offer whose stack has left its slot is not taken from its owner and is given to the partner all the same |
| `TradeLocks.ArrangedOfferIsDoubled` | GameInterchange/gameinterchange.cpp:472-640 | an only stack offered in a slot other than the first stays with its owner and is given to the partner, once the bag has been arranged |
| `TradeLocks.RequestIsSafeExactlyWhen` | GameInterchange/gameinterchange.cpp:39-83 | a request keeps links mutual unless a player who is not trading asks itself |
| `TradeLocks.AnswerIsSafeExactlyWhen` | GameInterchange/gameinterchange.cpp:86-123 | for every role named and either answer: links stay mutual exactly when an answer that names nobody online, or a rejection that names the sender, comes from a player without a connected partner, and any other rejection takes nobody out of a trade with a third |
| `TradeLocks.OfferIsSafeExactlyWhen` | GameInterchange/gameinterchange.cpp:169-278 | an offer of goods that stack keeps the invariant exactly when it is not forged: nobody checks the type sent with it, but only an offer put on the list carries it |
| `TradeLocks.ForgedOfferNeverAgrees` | GameInterchange/gameinterchange.cpp:553-609 | the forged type arrives with the goods, in stack and row alike, and the bag that takes them agrees with no rows |
| `GameInterchange.SessionMgr.OperRequest` | GameInterchange/gameinterchange.cpp:39-83 | of all sessions only the two change, and only when both are free and the other is online: both are trading and each has the other as partner |
| `GameInterchange.SessionMgr.OperResponse` | GameInterchange/gameinterchange.cpp:86-123 | an accepted request changes nothing; a rejection clears both trades, the sender's alone if the other is offline; no slot is unlocked |
| `GameInterchange.SessionMgr.OperMoneyChanges` | GameInterchange/gameinterchange.cpp:125-167 | the offer is set exactly when the balance covers it; with the partner gone the own trade ends and its slots are given back |
| `GameInterchange.SessionMgr.OperChanges` | GameInterchange/gameinterchange.cpp:169-278 | for goods that stack, search, lock, list of offers and offline partner: all sessions end as in `OfferGoods`, in every branch; what that adds and takes off is said by `AddPutsOnTheList` and `RemoveTakesOff` |
| `GameInterchange.SessionMgr.OperProLock` | GameInterchange/gameinterchange.cpp:280-308 | the own side alone is locked; with the partner gone the trade ends |
| `GameInterchange.SessionMgr.OperProUnlock` | GameInterchange/gameinterchange.cpp:310-352 | both sides lose lock and confirmation when the other side has confirmed, else nothing changes; with the partner gone the trade ends |
| `GameInterchange.SessionMgr.OperDoChange` | GameInterchange/gameinterchange.cpp:461-703 | the four loops over offers and the two payments, on both sessions in place, give the bags, rows and purses of `SwapGoods` and `SwapMoney` |
| `GameInterchange.SessionMgr.OperProCheckChange` | GameInterchange/gameinterchange.cpp:354-459 | locks, confirmation of the other side, free slots on both sides, then swap or break-off: all sessions end as in `Check`, in every branch |
| `GameInterchange.SessionMgr.OperProCancelChange` | GameInterchange/gameinterchange.cpp:843-875 | both trades are cleared and their slots unlocked; with the partner gone the own trade is cleared and its slots stay locked |
| `GameInterchange.SessionMgr.OperProCancelRequest` | GameInterchange/gameinterchange.cpp:877-901 | both trades are cleared, the own alone if the partner is gone; no slot is unlocked |
| `GameInterchange.SessionMgr.UnlockOffers` | GameInterchange/gameinterchange.cpp:140-143 | the loop marks every offered slot as in use |
| `GameInterchange.SessionMgr.Clear` | Game/session.hpp:64-74 | flags, partner and offers are reset |
| `Visibility.InViewIsMutual` | PlayerLogin/playerlogin.cpp:1378-1387 | range is symmetric |
| `Visibility.RefreshIsValid` | PlayerLogin/playerlogin.cpp:1243-1341 | a refresh keeps "in view of" symmetric, decides every pair with the mover by range, and changes nothing between others |
| `Visibility.RefreshRecomputes` | PlayerLogin/playerlogin.cpp:1243-1341 | after SendViewRole the mover sees exactly the roles in range, as a recomputation from nothing would give |
| `Visibility.MoveShowsExactlyWhen` | Game/userposition.hpp:60-84 | a move of 100 units or more from the start point shows the mover exactly the roles in range of its new position, and it to them, and changes nothing between others; a shorter one changes nobody's view |
| `Visibility.LoginShows` | PlayerLogin/playerlogin.cpp:1243-1341 | who logs in sees exactly the roles in range, and they see it |
| `Visibility.LogoutForgets` | PlayerLogin/playerlogin.cpp:954-970 | after logout no session lists the role, and visibility stays symmetric |
| `Visibility.LogoutLeavesOthers` | PlayerLogin/playerlogin.cpp:954-970 | a logout takes one session away and changes nothing between others |
| `Visibility.VisibilityStaysMutual` | PlayerLogin/playerlogin.cpp:954-1357 | over every run of logins, moves, refreshes and logouts visibility is symmetric and names only connected roles |
| `Visibility.Viewers.SendViewRole` | PlayerLogin/playerlogin.cpp:1243-1341 | the loop over the sessions changes the view maps as `Refresh` says |
| `Visibility.Viewers.SendOffLineToViewRole` | PlayerLogin/playerlogin.cpp:954-970 | the loop over those in view removes both entries of each pair |
| `Visibility.Viewers.SavePlayerOfflineData` | PlayerLogin/playerlogin.cpp:57-108 | those in view forget the role, and its session goes |
| `Visibility.Viewers.PlayerMove` | Game/userposition.hpp:60-84 | the position changes, and far enough from the start point the view is refreshed |
| `MonsterState.WalkUndoesRunExactlyWhen` | Monster/monsterstruct.h:57-61 | doubling and halving the move rate undo each other exactly when the doubled rate fits 32 bits |
| `MonsterState.MethodsKeepPaceExactlyWhen` | Monster/monsterstruct.h:33-310 | of each method that changes a monster, when it keeps the pace invariant: setting the pace alone only when it is that already, walking and spawning only without a target, a new target only for the living |
| `MonsterState.HitKeepsPace` | GameAttack/gameattack.cpp:427-477 | a blow, deadly or not, with the methods it calls, keeps the move rate at the type's, doubled exactly while running; a target means running and alive; running without target means returning |
| `MonsterState.ActKeepsPace` | Monster/monster.cpp:350-512 | so does every round of activity, with the methods it calls |
| `MonsterState.PaceFitsOverRuns` | Monster/monster.cpp:334-524 | so does every run of blows, rounds, and roles coming into and leaving view |
| `MonsterState.HitTakesPoints` | Monster/monsterstruct.h:33-50 | a blow takes as many hit points as it has damage, down to zero, and remembers who struck first |
| `MonsterState.FightTakesPoints` | GameAttack/gameattack.cpp:427-477 | over every run between two spawns or returns, hit points at the end are those at the start less the sum of the damage: the monster lives until the blow with which the sum reaches them, and dies of it |
| `MonsterState.ActRestoresExactlyWhen` | Monster/monster.cpp:361-399 | a round gives a monster all its hit points exactly when it is dead or back without a target, and changes the hit points of no other |
| `MonsterState.HitIsResented` | GameAttack/gameattack.cpp:450-476 | a monster that survives a blow hates the attacker by the damage more and nobody else, and turns to it exactly when it had no target or hates it more than the one it had |
| `MonsterState.ActDecides` | Monster/monster.cpp:361-512 | which monsters a round lets walk, wander, return, give up their target for another, or keep and follow it |
| `MonsterState.ViewChangesOneEntry` | Monster/monster.cpp:134-224 | coming into view lists one role without hatred, leaving takes that role off, and neither changes anything else |
| `MonsterState.NewAimIsGreatest` | Monster/monster.cpp:713-727 | the search finds a greatest hatred that is not zero, or none when all are zero |
| `MonsterState.HitHatesMostExactlyWhen` | GameAttack/gameattack.cpp:450-476 | a blow keeps the target the most hated unless it comes from the target, the monster survives it, and its hatred of the target wraps to less than that of another |
| `MonsterState.SearchNewAimIsGreatest` | Monster/monster.cpp:706-737 | after the death of the target the new target is the most hated, or nobody is hated |
| `MonsterState.DeleteOldIsGreatest` | Monster/monster.cpp:739-773 | after the target has gone offline the new target is the most hated of the rest, whichever entry the write through the erased iterator zeroes |
| `MonsterState.ActHatesMostExactlyWhen` | Monster/monster.cpp:350-512 | a round keeps that unless the monster gives up at the pursuit limit while it still hates someone |
| `MonsterState.EnterViewHatesMostExactlyWhen` | Monster/monster.h:172-177 | a role coming into view upsets it exactly when it is the target and another is hated |
| `MonsterState.LeaveViewHatesMostExactlyWhen` | Monster/monster.h:179-184 | a role leaving the view upsets it exactly when it is the target |
| `MonsterState.TargetIsMostHatedOverRuns` | GameAttack/gameattack.cpp:427-477 | over every run without those upsets the target is hated at least as much as anyone, and without a target nobody is hated |
| `MonsterView.LookKeepsListed` | Monster/monster.cpp:134-224 | after PushViewMonsters the role sees exactly the living monsters in range, and each lists it |
| `MonsterView.BlowKeepsListed` | GameAttack/gameattack.cpp:404-454 | after a death no role that is online sees the monster, and its map is empty |
| `MonsterView.RoundKeepsListed` | Monster/monster.cpp:361-381 | a monster that spawns lists every role that is shown it |
| `MonsterView.LogoutKeepsListed` | PlayerLogin/playerlogin.cpp:1558-1568 | a logout takes the role off the lists of the monsters it saw |
| `MonsterView.LookFollows` | Monster/monster.cpp:134-224 | after PushViewMonsters the list of every monster has followed what the role has begun or ceased to see, and nobody else sees more or less |
| `MonsterView.BlowStrikesOne` | GameAttack/gameattack.cpp:404-477 | a blow changes the one monster as `Hit` says, and nobody's view unless it dies |
| `MonsterView.RoundShows` | Monster/monster.cpp:361-381 | all roles in range of a monster that spawns see it and are on its list; no other round changes a view |
| `MonsterView.LogoutTakesOff` | PlayerLogin/playerlogin.cpp:1558-1568 | after a logout the role is on the list of no monster it saw, and the views of others are as they were |
| `MonsterView.ViewsStayListed` | Monster/monster.cpp:134-524 | in every reachable state a role that sees a monster is listed by it, and nobody sees a dead one |
| `Monsters.FindAim` | Monster/monster.cpp:713-727 | the loop over the hatred map finds the aim `NewAim` names |
| `Monsters.MonsterMgr.PushViewMonsters` | Monster/monster.cpp:134-224 | the loop over all monsters changes views and lists as `Look` says |
| `Monsters.MonsterMgr.RoleViewDeleteMonster` | GameAttack/gameattack.cpp:404-424 | the listed roles that are online forget the monster |
| `Monsters.MonsterMgr.DamageDealWith` | GameAttack/gameattack.cpp:427-477 | the monster struck, its list, and the clean-up after a death end as `Blow` says (`BlowStrikesOne`, `HitTakesPoints`); no other monster changes |
| `Monsters.MonsterMgr.Monsteractivity` | Monster/monster.cpp:350-512 | one monster in one round: spawning, wandering, giving up, a new aim, pursuit or attack as `Round` says; no other monster changes |
| `Monsters.MonsterMgr.Appear` | Monster/monster.cpp:361-381 | the roles in range see the monster that spawns |
| `Monsters.Chase` | Monster/monster.cpp:400-500 | with a target: too far from the start it gives up; an offline, dead or just killed target is replaced by the most hated; else it follows or strikes |
| `Monsters.BearBlow` | GameAttack/gameattack.cpp:450-476 | a monster that survives a blow hates the attacker by as much more and turns to it when it is the most hated, in place |
| `Monsters.MonsterMgr.SavePlayerOfflineData` | PlayerLogin/playerlogin.cpp:1558-1568 | the loop over the monsters in view takes the role off their lists |
| `Tasks.AcceptAimsAgrees` | GameTask/gametask.cpp:92-146 | accepting a task keeps every task listed under goods once for each of its aims that collects them |
| `Tasks.QuitTaskAgrees` | GameTask/gametask.cpp:153-176 | quitting keeps every task listed once for each of its collect aims; what it takes out is said by `QuitTaskForgets` |
| `Tasks.QuitTaskForgets` | GameTask/gametask.cpp:153-176 | after quitting the task is not accepted, no list of the index holds it, and accepted tasks and lists are otherwise as they were |
| `Tasks.AskTaskAcceptsExactlyWhen` | GameTask/gametask.cpp:52-150 | a task is accepted exactly when it is known, has aims, is not accepted yet and the level suffices; then a collect aim starts at the lesser of what the bag holds and the amount, an upgrade aim at the lesser of level and amount, any other at zero |
| `Tasks.AskTaskAgrees` | GameTask/gametask.cpp:52-150 | asking for a task, accepted or refused, keeps the index in agreement |
| `Tasks.QuittingUndoesAsking` | GameTask/gametask.cpp:52-176 | asking for a task that was not accepted and quitting it restores the accepted tasks, and the multiset of every list of the index |
| `Tasks.ListedExactlyWhenCollecting` | GameTask/gametask.cpp:535-569 | a task is listed under goods exactly when one of its aims collects them |
| `Tasks.UpdatedIsMinExactlyWhen` | GameTask/gametask.cpp:917-941 | the branches set the progress to the lesser of bag count and amount asked, unless that amount is below the count and the count below the progress |
| `Tasks.UpdateReachesEveryAim` | GameTask/gametask.cpp:884-946 | the update sets every aim on the goods, of every accepted task, to the lesser of bag count and amount asked, and no other aim |
| `Tasks.UpdateTwice` | GameTask/gametask.cpp:884-946 | a task listed twice under the same goods is updated twice to the same effect |
| `Tasks.IndexAgreesOverRuns` | GameTask/gametask.cpp:52-176 | over every run of accepting, quitting and gathering the index agrees with the accepted tasks and no progress exceeds what is asked |
| `GameTask.TaskBook.AddGoodsTask` | GameTask/gametask.cpp:556-569 | the task is appended under the goods |
| `GameTask.TaskBook.DeleteGoodsTask` | GameTask/gametask.cpp:535-554 | the first entry of the task goes, and an empty list with it |
| `GameTask.TaskBook.AskTask` | GameTask/gametask.cpp:52-150 | guards, aims, index and starting counts as `AskTask` on values |
| `GameTask.TaskBook.QuitTask` | GameTask/gametask.cpp:153-176 | entries and task go as `QuitTask` on values says: exactly those of the task (`QuitTaskForgets`) |
| `GameTask.TaskBook.UpdateCollectGoodsTaskProcess` | GameTask/gametask.cpp:884-946 | the three nested loops update as `UpdateCollect` says |

## Left out

Limits of what is stated:

- Md5Instance.Hash: the input is at most 2^32 - 64 bytes, because that is one update; longer messages are fed in several (BlockHash.FirstDigest), or through UpdateFile.
- BagAgreement.MoveKeeps: goods are moved within one goods number; a move between different goods goes to ExchangeBagGoods, which is left out.
- BagRuns.RunAgrees: the runs start from a bag in agreement, such as an empty one; loading a bag from the database is not modelled.
- TradeRuns.RunIsSafe: an answer names the own partner, nobody asks itself or arranges a bag it offers from, what is offered stacks, and no offer is forged; TradeLocks.RequestIsSafeExactlyWhen, TradeLocks.AnswerIsSafeExactlyWhen, TradeLocks.ArrangingIsSafeExactlyWhen and TradeLocks.OfferIsSafeExactlyWhen give the exact conditions of all these but the offer of equipment, which is not modelled. A move that journals the wrong stack is left out too; BagRuns.StepAgreesExactlyWhen is about it.
- TradeRuns.BusinessIsSafe: picking up, buying and selling between trades are any change that keeps bag and rows in agreement and the cap of 99, which BagRuns.StepAgreesExactlyWhen and BagRuns.StepKeepsCap show these operations to be.
- BagArranging.ArrangeBagGoods: the end iterator is refreshed after the erase at line 1228, as intended; the source goes on with an invalid one.
- GameInterchange.SessionMgr.OperChanges: only for goods that stack; an offer of equipment is not modelled.
- GameInterchange.SessionMgr.OperDoChange: lines 686 and 689 use the purse of the wrong side; the purse of the owner is meant and modelled.
- OperationGoods.PlayerGoods.MoveBagGoods: reading the target iterator after the erase is undefined in C++; what contiguous storage gives is modelled, the next stack or, past the end, the moved copy of the last.
- OperationGoods.PlayerGoods.GetEmptyPosCount: slots 1 to 64; the source also reads index 65, past the array.
- MonsterState.DeleteOldIsGreatest: the source moves the iterator on, erases the old target behind it, and writes zero to the entry it has moved to, even at the end of the map; modelled as zeroing any one entry that is left, or none.
- Visibility.InViewIsMutual: distances are over the reals, without rounding.

Parts of the repository that are not modelled:

- Offers of equipment in a trade: the slot of offered equipment is not freed, so slots would not agree.
- Locks do not freeze offers in the source, so nothing of the kind is claimed; the swap takes what is offered when it runs.
- operReport, and all other messages sent to clients.
- The collect tasks of the two sides after a swap: the source refreshes those of the confirming side only.
- Returning to the choice of roles in the middle of a session; a login is over a new connection.
- The branch of the framing loop that saves a player's data offline when a header announces more than 512 bytes; Framing works for any length, and says which lengths keep room in the buffer.
- PickUpMoney, and the branch of PickUpGoods that picks up everything (its loop advances with `vec = vec++`).
- How SellGoods computes its coins; the purse after a sale is a parameter.
- Money among the loot: `PickUpGoods` for the name of money.
- ExchangeBagGoods, RemoveBagGoods, WearBodyEqu, TakeOffBodyEqu, UseBagGoods, TaskFinishGoodsReward: they do not keep slots, journal and positions in agreement, or use none of them.
- Attributes and durability of equipment, and the source of goods.
- Tables other than the goods: UpdatePostgresData serves the other queues in the same way.
- How PlayerPositionMove works out the new position; from there on it is PlayerMove, and Visibility.VisibilityStaysMutual holds for any position.
- Places, times, directions and recovery of monsters, damage, critical hits and dodging: a blow has any damage.
- FinishCollectGoodsTask, progress of upgrade and attack tasks, and the journal of tasks.
- Threads and locks, sockets, SQL text, Redis, logging; chat, friends, rpc, fileOperation, PlayerTrading.
