# Exchange simulator: a verified model

A Dafny model of the parts of the exchange simulator where state, order and
arithmetic interact, with proofs of what they keep and undo. It has four parts.

- **Trading core.** One instrument's order book, continuous matching in four
  self-trade modes, the call auction, amendments and the trade statistics. The
  indexed book (sorted price list, map of levels, priceless queue) is a class whose
  methods are proved equal to operations on one flat priority list per side; the
  engine, the auction and the market are classes proved equal to rules on those
  lists; the theorems are about the rules, over every book and every run.
- **FIX session.** Inbound numbering, the gap queue and its drain, Logon and
  SequenceReset, the outbound store and replay with gap fills. Steps of one session
  first, then a sender's replay met by a receiver's inbound rules.
- **Wire formats.** The tag=value and binary messages, the packets of the direct
  interface, presence maps with nested repeating blocks, scaled quantities, CRC32C,
  and the three stream readers.
- **Numbers and keystreams.** The sieve, Miller-Rabin, RSA keys and their two private
  operations, the resumable counter keystream and the two ciphers built on it.

`dafny verify dfyconfig.toml` checks the project. Where the source updates an object
in place the model has a class with the same fields, and the `ensures` of each method
ties the new state to a specification function; where the source computes a value it
is a function. The value an object stands for is its `View()`.

How the modules build on each other:

| part | specification | theorems | classes and loops |
|---|---|---|---|
| core | Orders, PriceLevels, Matching, BookRules, Auction, AuctionTrading, Trading | Matching, Auction, AuctionTrading, AuctionFairness, WalkOutcome, EntryOutcome, AmendOutcome, Ledger, BookInvariants, MarketRuns, ContinuousTrading, DayOrders, AllOrNothing, AmendPriority | Orders, Book, Amendment, MatchingEngine, CallAuction, AuctionExecution, MarketAuction, Market |
| session | SessionRules | SessionReplies, SessionOrder, ExactlyOnce, Recovery | SessionEngine |
| wire | Framing, Numerals, Scaling, FixMessages, Bits, WireTypes, Presence, BinaryFrames, NnfPackets, Layouts | Framing, Numerals, IntegerTexts, Scaling, FixRoundTrip, FixFraming, FixIntegrity, Checksums, CrcDivision, CrcErrors, Presence, WireTypes, WireBytes, BinaryFrames, NnfPackets, FrameBytes, LayoutRoundTrip, LayoutSpelling, LayoutValues, LayoutLimits | Framing, FixObjects, Checksums, Presence, LayoutCodec |
| numbers | Divisibility, Fermat, Keystream, Ciphers | Divisibility, Fermat, RsaKeys, Primality, Witnesses, Keystream, Ciphers, Sealing | RsaKeys, Primality, Keystream, Ciphers |

## Findings

Properties the code was expected to have and does not, each with the exact condition
under which it holds.

1. **Fill-or-kill can fill partly.** The pre-check passes over resting orders of the
   same owner, but matching stops at or shrinks on one of them. The outcome is all or
   nothing if and only if the pre-check refuses or no own order splits the quantity
   reached (`AllOrNothing.FokAllOrNothing`; a three-order book that fails is
   `AllOrNothing.FokCanFillPartly`). The same holds of a minimum quantity
   (`AllOrNothing.MinQtyAllOrNothing`). In the cancel-oldest mode, or without an own
   order among those crossed, it never happens (`AllOrNothing.NoSelfMatchNoSplit`).
2. **An engine amendment can move orders.** Lowering a quantity re-sorts the whole
   level by entry sequence, and an order sent to the back keeps its old sequence. The
   queue is otherwise unchanged if and only if the level stands in entry sequence
   around the order (`AmendPriority.AmendKeepsPlace`); otherwise a reduction takes an
   order ahead of one it had lost its place to (`AmendPriority.ReductionGainsPlace`).
3. **A market amendment loses priority.** While matching, a reduction reports that
   priority was kept and yet re-enters the order behind everyone at its price. It
   stands where it stood if and only if nobody at its price stood behind it, and the
   other orders keep their relative order if and only if those at its price stand in
   entry sequence (`AmendPriority.MarketAmendPlace`).
4. **A bounded replay passes over messages.** Its trailing gap fill runs to the next
   number to be sent, not to the end asked for. Nothing owed is passed over if and only
   if the last number asked for can be replayed or nothing is owed beyond it
   (`Recovery.BoundedReplayPassesOver`).
5. **Queued messages can be stranded.** A SequenceReset that is processed, gap fill or
   not, jumps over queued numbers. With no SequenceReset or Logout itself queued, a
   number is stranded if and only if it was queued and lies below the number set
   (`SessionOrder.ResetStrandsExactly`); whatever else is queued, what a reset jumps over
   is (`SessionOrder.ResetStrands`). A stranded message stays queued until the epoch
   ends, and the session asks for no later gap (`SessionOrder.ReceiveStaysStuck`). In a
   replay, an open-ended one recovers everything if and only if neighbouring numbers that
   cannot be replayed were queued together or not at all
   (`Recovery.RecoveryComposes`); with only application messages queued it always does
   (`Recovery.ApplicationQueueRecovers`). A Logon that arrives above a gap is itself
   queued, and logging on so recovers everything if and only if the messages on either
   side of the Logon can be replayed (`SessionReplies.LogonRecovers`).
6. **A Logon without MsgSeqNum rewinds.** A Logon that resets nothing moves the expected
   number forward if and only if it is numbered, turned away, or had nothing to lose
   (`SessionOrder.LogonAdvancesExactly`).
7. **A long BeginString makes chunking matter.** An encoded message is read whatever
   the chunks if and only if its BeginString is at most 60 bytes and its body within the
   limit (`FixFraming.EncodedFramed`); a longer one is read when it arrives at once and
   refused when its first 65 bytes arrive alone (`FixFraming.LongBeginStringRefused`).
8. **Short packets are written but not read.** The packet writer accepts any data, the
   reader insists on the forty bytes of a message header: a packed packet is a frame if
   and only if its data holds at least forty (`NnfPackets.PackedFramed`).
9. **Unscaling is not shortest.** Documented to give the shortest decimal string, it
   does so if and only if the number is zero or has a whole part; 0.5 could be `.5`
   (`Scaling.UnscaleShortest`).
10. **Binary fields rewrite what they carry.** A value that packs is not always the value
    that comes back; `LayoutSpelling.RestoresExactly` says, for every converter on every
    type, by which spelling it does. Text must leave room for its field and hold no NUL
    (`LayoutSpelling.PlainTextRestores`). A number must be a plain numeral, so `007`,
    `+5` and `1_0` are lost (`LayoutSpelling.NumberRestores`). A flag in a number field
    must be `Y` or `N` (`LayoutSpelling.FlagRestores`). An enumeration's text must be the
    first listed with its wire value (`LayoutSpelling.EnumRestores`). A quantity must be
    a plain decimal: an optional minus sign but not `-0`, no leading zero before another
    digit, no trailing zero behind a point, no bare point, plus sign or blank
    (`LayoutSpelling.QuantityRestores`, `Scaling.PlainDecimalExact`).
11. **The parts of a key need odd primes.** Recombining from the two primes equals the
    private operation on every number below the modulus if and only if neither prime is
    2 (`RsaKeys.PartsRecombine`); generated keys have odd primes.
12. **The first GCM counter is incremented over 128 bits** where section 6.2 of
    NIST SP 800-38D increments the low 32. The two agree, block by block, if and only if
    the low 32 bits of J0 are not all ones (`Keystream.IncrementsAgree`).
13. **An order can end with more executed than its quantity** when an amendment asks for
    less than it has executed; over any run every order that has left is within its
    quantity if and only if none did (`ContinuousTrading.RunStaysBounded`). Validation
    refuses such an amendment before the market sees it.
14. **IVs repeat after 2^64 messages.** No IV is used twice if and only if fewer than
    2^64 messages have been sealed altogether, or exactly as many by one end alone
    (`Ciphers.IvsNeverReused`).

## Model

| member | source | states |
|---|---|---|
| AuctionTrading.AuctionClearsTheCross | exchangesim/core/market.py:130-173 | whatever crossed book was accumulated, with any reference and any rule list led by maximum volume, the auction leaves best bid below best ask or a side empty, and no priceless order; an overlapping book always finds a price |
| AuctionTrading.MaximalPriceUncrosses | exchangesim/core/auction.py:220-277 | trading at a price no other price beats in volume leaves no pair that crosses |
| AuctionTrading.PairOffUsesPrefixes | exchangesim/core/auction.py:234-262 | the two-pointer loop fills a prefix of each list, touches at most one order behind it, and stops only when a list is used up |
| AuctionTrading.PairOffTradesLeast | exchangesim/core/auction.py:234-262 | what is traded is exactly the smaller of the two open quantities |
| AuctionTrading.ExecutesTheVolume | exchangesim/core/auction.py:220-262 | executing at any price trades exactly the volume the price row announced |
| Auction.UncrossIsGloballyMaximal | exchangesim/core/auction.py:93-143 | an overlapping book has an auction price, and no integer price, quoted or not, could trade more |
| Auction.QuotedAsGood | exchangesim/core/auction.py:188-198 | for every integer price some quoted price trades at least as much |
| Auction.VolumeMonotone | exchangesim/core/auction.py:201-211 | the volume of a side never falls as it is offered a better price |
| Auction.CandidatesExact | exchangesim/core/auction.py:188-198 | the candidates are the prices of resting limit orders and no others |
| Auction.StandardChainWins | exchangesim/core/auction.py:146-185 | filtering by the standard rules one after the other gives the row that wins by volume, then least imbalance, then the common direction of the surplus or the reference, then the higher price |
| Auction.WinnerIsUnique | exchangesim/core/auction.py:146-185 | no two rows win |
| Auction.StandardPriceIsTheWinner | exchangesim/core/auction.py:93-143 | under the standard rules a row is the auction's exactly when it wins among the tradable ones |
| AuctionFairness.AuctionIsExactAndFair | exchangesim/core/market.py:130-173 | with a price row the auction trades its announced volume at its price, without one at the reference, without either nothing, as on an uncrossed book no row is found; on each side the filled orders are a prefix of its priority, all accept the price, and the book afterwards holds the others as they stood, the first of them at most partly filled; one side's willing orders are used up, every trade is reported at that price, and then the priceless orders are cancelled |
| AuctionFairness.AuctionClears | exchangesim/core/market.py:130-173 | what the auction leaves is what its execution leaves without the priceless orders, each cancelled and reported once, in order |
| AuctionFairness.PairOffFills | exchangesim/core/auction.py:234-301 | each order reached is filled at the auction price, in executed quantity and value, and the one behind at most partly |
| AuctionFairness.AcceptingIsExact | exchangesim/core/auction.py:266-277 | the executable list of a side is the part of its priority list that accepts the price, priceless orders first |
| AuctionFairness.ProfileIs | exchangesim/core/auction.py:201-211 | the row of a price is the open quantity of those who accept it on both sides: volume the smaller, imbalance the difference |
| AuctionFairness.PairOffReports | exchangesim/core/auction.py:280-301 | the reported trades add up to what was traded, each at the auction price, with nobody removing liquidity |
| CallAuction.CandidatePrices | exchangesim/core/auction.py:188-198 | the loop over the price lists yields the candidates of the flat book |
| CallAuction.DemandIsProfile | exchangesim/core/auction.py:201-211 | demand and supply counted over the levels are those counted over the flat lists |
| CallAuction.UncrossPrice | exchangesim/core/auction.py:93-143 | the price found on the indexed book is the one the rules prescribe for its value |
| AuctionExecution.ExecutableSide | exchangesim/core/auction.py:266-277 | the loop collects the priceless orders and those at the price or better, in priority, from the indexed side |
| AuctionExecution.FillPair | exchangesim/core/auction.py:280-301 | both orders are filled by the smaller open quantity and three reports are made, under the next trade number |
| AuctionExecution.FillBuyer | exchangesim/core/auction.py:242-259 | the inner loop over the sellers ends with the buyer filled or the sellers used up, at a stage from which the same pairing is completed |
| AuctionExecution.PairUp | exchangesim/core/auction.py:234-262 | the nested loops over the two lists, removing filled orders from the book, end where pairing off the flat lists ends |
| AuctionExecution.TradeAt | exchangesim/core/auction.py:220-262 | the book, its orders, the trade numbers and the reports afterwards are those of the specified execution, and exactly the filled orders have left |
| MarketAuction.ExpireSide | exchangesim/core/market.py:166-173 | every priceless order of a side is cancelled and reported in order, and nothing else on the book changes |
| MarketAuction.HoldAuction | exchangesim/core/market.py:130-154 | price, execution and expiry together equal the specified auction: book, reports, trade numbers and orders gone |
| Matching.WalkUsesPrefix | exchangesim/core/matching.py:165-181 | the resting orders used up are the front of the queue, in order, each crossed by the incoming order and in a final state |
| Matching.WalkTradesInPriority | exchangesim/core/matching.py:165-221 | in every self-trade mode the k-th trade is with the k-th order of others in the queue, at its price, under the next trade number, and for all of it but for the last |
| Matching.WalkLeavesRest | exchangesim/core/matching.py:165-181 | behind the orders used up only the first can have changed, and only by using up the incoming order |
| Matching.WalkStopsAtCross | exchangesim/core/matching.py:165-195 | an incoming order with quantity left no longer crosses the best resting order |
| Matching.WalkKeepsQueue | exchangesim/core/matching.py:165-221 | the rest is live, open and in price order, and what has left stayed within its quantity |
| Matching.WalkTradesReachable | exchangesim/core/matching.py:165-181 | in every self-trade mode the quantity executed equals one computed from the queue beforehand |
| Matching.ReachableOldest | exchangesim/core/matching.py:284-315 | cancelling the resting order reaches all crossing quantity of others |
| Matching.ReachableNewest | exchangesim/core/matching.py:284-315 | cancelling the incoming order reaches only what stands ahead of the first own order |
| Matching.ReachableDecrement | exchangesim/core/matching.py:317-358 | decrementing reaches the whole order if others' quantity ahead of the first own order covers it, and otherwise less than the whole |
| Matching.DecrementTradesNothing | exchangesim/core/matching.py:317-358 | nothing trades exactly when the own orders at the head of the queue absorb the incoming one |
| Matching.InsertSorted | exchangesim/core/book.py:41-51 | an order placed behind those at least as good keeps the queue in price order |
| WalkOutcome.WalkHasOutcome | exchangesim/core/matching.py:165-358 | told by keys, participants and limits alone: of the orders used up those of others are filled at their own price and own ones cancelled, the next is at most partly filled or, if own, reduced, and the incoming order ends at its limit, filled, or cancelled by an own order |
| WalkOutcome.WalkReports | exchangesim/core/matching.py:165-358 | the reports are one piece for each order reached, in queue order: a trade, told to both, exactly where the two share no key and, unless they both have keys or nothing is prevented, no participant; otherwise what prevention did to each |
| WalkOutcome.OwnIsSelfTrade | exchangesim/core/matching.py:260-276 | two orders are a self-match exactly when they have the same key, or when self-trades are prevented, one has no key, and they have the same participant |
| WalkOutcome.LimitIsCross | exchangesim/core/matching.py:157-163 | a price crosses exactly when it is within the limit |
| WalkOutcome.AskedMode | exchangesim/core/matching.py:278-282 | an order with a key and an instruction has its own way, any other the market's mode |
| EntryOutcome.Settles | exchangesim/core/matching.py:67-112 | exactly what is left of a Day limit order rests, on its own queue, with the quantity matching left it; anything else left is cancelled, on neither side, with one report and the reason of its type; and an entry is accepted at most once |
| EntryOutcome.RefusedExactly | exchangesim/core/matching.py:116-148 | the pre-check refuses a fill-or-kill order exactly when others offer less than the whole within its limit, an immediate one with a minimum exactly when they offer less than that, and nothing else |
| EntryOutcome.PostOnlyExactly | exchangesim/core/matching.py:67-78 | a post-only order is rejected, and the book left alone, exactly when something on the other side would trade with it |
| EntryOutcome.PostOnlyNeverTrades | exchangesim/core/matching.py:67-78 | so it never trades on entry |
| EntryOutcome.Accumulates | exchangesim/core/matching.py:67-112 | taken in without matching, every order rests and nothing trades |
| DayOrders.SubmitStaysDay | exchangesim/core/matching.py:100-112 | an entry that may match leaves nothing resting but Day limit orders |
| DayOrders.RunRestsDayOrders | exchangesim/core/matching.py:100-112 | over any run of continuous trading no market, immediate or fill-or-kill order rests |
| AmendOutcome.AmendGoesBehind | exchangesim/core/matching.py:368-393 | raised in quantity or changed in price an order goes behind everyone at its price, with nothing left it leaves, and the others keep their order |
| AmendOutcome.AmendOffTheBook | exchangesim/core/matching.py:368-393 | an order that is not on the book is put there exactly when it is live with something left |
| PriceLevels.BisectFinds | exchangesim/core/book.py:41-66 | bisecting from left and right meets at a price's place, one apart exactly where it is listed |
| PriceLevels.FlatAround | exchangesim/core/book.py:99-111 | the levels read in priority are those ahead of a price, its own, and those behind it |
| Book.BookSide.Enter | exchangesim/core/book.py:41-51 | adding appends to the priceless queue or inserts behind equal prices in the flat list, keeping the index consistent |
| Book.BookSide.Leave | exchangesim/core/book.py:53-66 | removing takes exactly the order with the id out of its own list, drops an empty level, and says whether it was there |
| Book.BookSide.PriorityIsQueue | exchangesim/core/book.py:85-111 | iterating the levels in priority gives the flat list, and the best level's first order is its head |
| Book.BookSide.QueueSorted | exchangesim/core/book.py:28-66 | the index always reads as a list in price priority of this side's limit orders |
| Book.BookSide.WillingQuantity | exchangesim/core/book.py:121-133 | the quantity above or below a price, summed over levels, is that of the flat list's willing orders |
| Book.OrderBook.Add | exchangesim/core/book.py:222-223 | the order joins its own side and the other is untouched |
| Book.OrderBook.Remove | exchangesim/core/book.py:225-226 | the order leaves its own side and the other is untouched |
| Orders.Order.ApplyFill | exchangesim/core/orders.py:106-119 | the open quantity falls by the fill, the executed value rises by it, and the order is filled exactly when nothing is left |
| Orders.Order.ReduceQuantity | exchangesim/core/orders.py:121-131 | the open quantity falls by the amount, never below what is executed |
| Orders.Order.CancelOrder | exchangesim/core/orders.py:133-137 | nothing is left open, and a final order stays as it was |
| MatchingEngine.MatchingEngine.BestMatch | exchangesim/core/matching.py:183-195 | the order returned is the head of the flat queue, and none is returned exactly when it is not crossed |
| MatchingEngine.MatchingEngine.Execute | exchangesim/core/matching.py:197-221 | one execution at the resting price is one meeting of the walk, on both orders, the book and the reports |
| MatchingEngine.MatchingEngine.ApplyStp | exchangesim/core/matching.py:284-315 | resolving a self-match is the meeting of the walk in that mode, and says whether matching stops |
| MatchingEngine.MatchingEngine.ApplyDecrement | exchangesim/core/matching.py:317-358 | the three cases of decrementing are the meeting of the walk |
| MatchingEngine.MatchingEngine.Match | exchangesim/core/matching.py:165-181 | the loop over the indexed book ends with the events, orders, book and trade numbers of the walk down the flat list |
| MatchingEngine.MatchingEngine.Executable | exchangesim/core/matching.py:136-148 | the pre-check counts on the indexed book what the specification counts on the flat list |
| MatchingEngine.MatchingEngine.Count | exchangesim/core/matching.py:140-148 | its loop over the resting orders, early exits included |
| MatchingEngine.MatchingEngine.Precheck | exchangesim/core/matching.py:116-134 | the order is cancelled with the right reason exactly when the rules refuse it, and otherwise untouched |
| MatchingEngine.MatchingEngine.Submit | exchangesim/core/matching.py:67-112 | book, order, reports and trade numbers after an entry are those the rules prescribe, and exactly the orders used up have left |
| MatchingEngine.MatchingEngine.Cancel | exchangesim/core/matching.py:362-366 | the order is cancelled, off the book and reported, and nothing else changes |
| MatchingEngine.MatchingEngine.Amend | exchangesim/core/matching.py:368-393 | terms, place on the book and the returned flag are those the rules prescribe |
| Amendment.ReinsertKeepingPriority | exchangesim/core/matching.py:395-407 | taking a level off and adding it back sorted by sequence re-queues the order and disturbs no other level |
| Market.InstrumentStatistics.Record | exchangesim/core/marketdata.py:54-66 | open, high, low, last, volume, turnover and count stay those of the trades recorded, one more each time |
| Market.InstrumentStatistics.RecordTrades | exchangesim/core/marketdata.py:143-151 | the trades among some events are folded in, in order |
| Market.TradesJoin | exchangesim/core/market.py:215-230 | the trades among two stretches of events are those of the one and then those of the other |
| Market.TradesSum | exchangesim/core/market.py:215-230 | and they add up, in quantity and value, to what is reported |
| Market.OthersStay | exchangesim/core/market.py:104-126 | what an amendment reports is what the entry reports, acceptances dropped and the rest in order |
| Market.Market.Submit | exchangesim/core/market.py:82-96 | market, statistics and reports after an entry are those of the state machine's step |
| Market.Market.Cancel | exchangesim/core/market.py:98-102 | likewise for a cancel |
| Market.Market.Amend | exchangesim/core/market.py:104-126 | likewise for an amendment, re-entry and the dropped acceptance included |
| Market.Market.Uncross | exchangesim/core/market.py:130-173 | likewise for an auction, with the price row the rules prescribe |
| Market.Market.Absorb | exchangesim/core/market.py:215-230 | statistics gain exactly what the events report |
| MarketRuns.StepTotal | exchangesim/core/market.py:82-173 | one step changes what an order id, buys or sells have executed by exactly what it enters and reports, for all measures at once |
| MarketRuns.StepKeepsGood | exchangesim/core/market.py:82-173 | no step duplicates or loses an order, breaks price order, or unbalances buys, sells and statistics |
| ContinuousTrading.RunStaysGood | exchangesim/core/market.py:82-173 | over every run of entries, cancels, amendments and auctions: price order, live resting orders with something left, each order once, and bought equals sold equals volume, in quantity and in value |
| ContinuousTrading.RunStaysBounded | exchangesim/core/market.py:82-173 | over every run, what has left the book stays within its quantity exactly when no amendment asks for less than has been executed |
| ContinuousTrading.RunStaysContinuous | exchangesim/core/matching.py:67-112 | over every run of continuous trading, in every self-trade mode, nothing crosses and nothing priceless rests |
| ContinuousTrading.AuctionOpensTheDay | exchangesim/core/market.py:130-173 | whatever was accumulated, an auction followed by any continuous trading leaves an uncrossed book |
| ContinuousTrading.EmptyIsGood | exchangesim/core/market.py:21-46 | an empty market meets every invariant |
| ContinuousTrading.CrossFreeIsUncrossed | exchangesim/core/book.py:211-220 | no pair of orders crosses exactly when the two best do not |
| AllOrNothing.FokAllOrNothing | exchangesim/core/matching.py:116-148 | the pre-check passes exactly when others' crossing quantity covers the order; the outcome is all or nothing exactly when it refuses or no self-match splits the order |
| AllOrNothing.MinQtyAllOrNothing | exchangesim/core/matching.py:116-148 | the same for a minimum quantity |
| AllOrNothing.NoSelfMatchNoSplit | exchangesim/core/matching.py:136-148 | without an own order among those crossed nothing splits the order |
| AllOrNothing.RefusalTouchesNothing | exchangesim/core/matching.py:116-134 | a refused order leaves the book, the orders and the trade numbers as they were |
| AllOrNothing.ExecutableIsLiquidity | exchangesim/core/matching.py:136-148 | the early-stopping count reaches a threshold exactly when the crossing quantity of others does |
| AllOrNothing.OwnOfferSplits | exchangesim/core/matching.py:136-181 | under cancel-newest, an own order between others' quantity leaves a fill-or-kill order partly filled |
| AllOrNothing.FokCanFillPartly | exchangesim/core/matching.py:142-144 | a concrete book and order for which fill-or-kill fills partly |
| AmendPriority.AmendKeepsPlace | exchangesim/core/matching.py:368-407 | lowering a quantity leaves the queue as it was but for that order exactly when the order holds its place in entry sequence |
| AmendPriority.SortRestores | exchangesim/core/matching.py:395-407 | re-sorting a level puts an order back between the same neighbours exactly when the level is in entry sequence there |
| AmendPriority.ReductionGainsPlace | exchangesim/core/matching.py:403-407 | a reduction takes an order ahead of one that had overtaken it |
| AmendPriority.MarketAmendPlace | exchangesim/core/market.py:104-126 | the whole queue after a reduction while matching; the order stands where it stood exactly when nobody at its price stood behind it, and the others keep their order exactly when they stand in entry sequence |
| SessionReplies.LogonTaken | exchangesim/fix/session.py:442-543 | an accepted Logon above the number expected leaves that number, is queued under its own, and is followed by one request from the gap if nobody has asked and the peer is not told by other means; in turn it moves the number behind its own and queues and asks nothing; the acknowledgement, and the replay of what the peer says it misses, are exactly these |
| SessionReplies.LogonTurnedAway | exchangesim/fix/session.py:442-520 | a Logon is turned away exactly when the session is up, a reset is not allowed, it claims more than was sent or does not say, or its number is too low |
| SessionReplies.LogonRecovers | exchangesim/fix/session.py:442-631 | logging on above a gap, request, replay and queued Logon together recover everything exactly when the messages on either side of the Logon can be replayed |
| SessionReplies.LogonComesFirst | exchangesim/fix/session.py:335-370 | before a Logon anything else is answered with a Logout and a disconnect |
| SessionReplies.OutOfTurn | exchangesim/fix/session.py:373-427 | a message without a number is rejected, one too high queued and asked about once, one too low ignored if it is a repeat and otherwise logged out on |
| SessionReplies.InTurn | exchangesim/fix/session.py:353-438 | with nothing queued a message in turn takes its number and gets the one reply due to its type, if any |
| SessionReplies.ResetInTurn | exchangesim/fix/session.py:562-584 | a reset sets the number expected, or is rejected when that would go back |
| SessionReplies.InvalidAnswered | exchangesim/fix/session.py:742-750 | an invalid message is rejected, and uses its number exactly when it was its turn |
| SessionReplies.SentIsKept | exchangesim/fix/session.py:661-708 | what is sent is numbered and kept even without a transport, and transmitted exactly with one |
| SessionReplies.SentIsReplayed | exchangesim/fix/session.py:603-648 | what was sent is replayed exactly when it is an application message that can be read again, with its contents |
| SessionReplies.ReplaysExactly | exchangesim/fix/session.py:603-648 | a replay resends exactly the readable application messages asked for |
| SessionOrder.ReceiveAdvances | exchangesim/fix/session.py:335-438 | one message moves the expected number forward only, and the application is given messages only at the number expected |
| SessionOrder.DeliversInOrder | exchangesim/fix/session.py:335-438 | over any run within a logon epoch delivered numbers strictly ascend and the expected number never goes back |
| SessionOrder.LogonAdvancesExactly | exchangesim/fix/session.py:442-543 | a Logon that resets nothing moves forward exactly when it is numbered, turned away, or had nothing to lose; unnumbered it sends the number to 1 |
| SessionOrder.SendStaysComplete | exchangesim/fix/session.py:661-708 | a message sent is stored under its number and no stored one changes |
| SessionOrder.ReceiveStaysComplete | exchangesim/fix/session.py:335-351 | whatever arrives, the store holds exactly the messages numbered since the last reset |
| SessionOrder.ResetStrandsExactly | exchangesim/fix/session.py:562-584 | a reset or gap fill that is processed strands exactly what is queued below the number it sets |
| SessionOrder.ResetStrands | exchangesim/fix/session.py:562-584 | a reset past a queued message strands it, whatever else is queued |
| SessionOrder.ReceiveStaysStuck | exchangesim/fix/session.py:412-438 | a stranded message stays queued whatever arrives within the epoch, and no later gap is asked for |
| ExactlyOnce.DeliversExactlyOnce | exchangesim/fix/session.py:353-438 | whatever order application messages arrive in, repeats flagged, the application is given exactly the unbroken run that has arrived, once and in order; the queue is exactly the rest, and a resend is outstanding exactly while it is not empty |
| ExactlyOnce.CollectAhead | exchangesim/fix/session.py:412-427 | the first message beyond the expected one raises exactly one request, from the expected number; later ones none |
| ExactlyOnce.DrainApps | exchangesim/fix/session.py:429-438 | draining delivers exactly the consecutive run at the front of the queue |
| Recovery.ReplayTiles | exchangesim/fix/session.py:603-631 | resends and gap fills cover the range without hole or overlap, as far as the last number or, behind a trailing gap, the next to be sent |
| Recovery.AnswersResend | exchangesim/fix/session.py:557-560 | a request in sequence is answered with the replay it asks for and consumes its number |
| Recovery.RecoveryComposes | exchangesim/fix/session.py:353-438 | an open-ended replay met by the inbound rules brings the receiver level, queue empty and nothing outstanding, exactly when neighbouring numbers that cannot be replayed were queued together or not at all; then it was delivered what it was owed |
| Recovery.ApplicationQueueRecovers | exchangesim/fix/session.py:353-438 | with only application messages queued it always recovers |
| Recovery.ResendRecovers | exchangesim/fix/session.py:557-631 | the receiver's own request, taken in sequence by the sender, yields the messages that recover it |
| Recovery.OwedExactly | exchangesim/fix/session.py:603-648 | what is owed is each application message of the range once, in order, and no administrative one |
| Recovery.BoundedReplayPassesOver | exchangesim/fix/session.py:630-631 | a bounded replay passes over nothing owed exactly when its last number can be replayed or nothing is owed beyond it |
| SessionEngine.MemoryStore.GetOutbound | exchangesim/fix/store.py:93-99 | the messages returned are those stored in the range, an end of 0 leaving it open |
| SessionEngine.FixSession.Replay | exchangesim/fix/session.py:603-631 | the loop carrying the start of a gap transmits the specified replay |
| SessionEngine.FixSession.Dispatch | exchangesim/fix/session.py:353-370 | routing in place is the specified step, recursion through the queue included |
| SessionEngine.FixSession.DrainPending | exchangesim/fix/session.py:429-438 | the drain loop ends where the specification does |
| SessionEngine.FixSession.CheckSequence | exchangesim/fix/session.py:373-410 | processed exactly when the rules say so, and otherwise dealt with as they say |
| SessionEngine.FixSession.OnLogon | exchangesim/fix/session.py:442-543 | numbering, reset, reply and replay at a Logon are the specified ones |
| SessionEngine.FixSession.Receive | exchangesim/fix/session.py:335-351 | one message taken in place is one step of the rules |
| SessionEngine.FixSession.Send | exchangesim/fix/session.py:661-708 | a message is numbered, stored and put on the wire as the rules say |
| Framing.ChunksDoNotMatter | exchangesim/fix/message.py:314-325 | for a splitter that what follows cannot change, any chunks give the frames, the tail and the failure of the whole stream |
| Framing.AnyChunks | exchangesim/fix/message.py:314-325 | for such a splitter a stream is refused in chunks exactly when it is refused whole, and otherwise gives the same frames and tail |
| Framing.FramesComeOut | exchangesim/fix/message.py:314-325 | a stream of well-formed frames and part of another, in any chunks, yields exactly those frames, raises nothing and keeps the part |
| Framing.Framer.Take | exchangesim/fix/message.py:314-325 | the loop over the buffer takes off the frames the specification does, and leaves its tail |
| FixRoundTrip.DecodesEncoded | exchangesim/fix/message.py:166-294 | decoding what was encoded gives BeginString, BodyLength, the fields in order of transmission and CheckSum, or nothing exactly when MsgType is missing |
| FixRoundTrip.EncodesDecoded | exchangesim/fix/message.py:181-294 | encoding what was decoded gives the same bytes |
| FixRoundTrip.DecodedValues | exchangesim/fix/message.py:250-294 | what arrives holds every value of every tag set, in order |
| FixRoundTrip.SortFieldsKeepsValues | exchangesim/fix/message.py:166-178 | ordering for transmission keeps each tag's values in order |
| FixRoundTrip.MsgTypeThird | exchangesim/fix/message.py:166-196 | MsgType comes third and the header fields behind it stand in header order |
| FixFraming.EncodedFramed | exchangesim/fix/message.py:199-247 | an encoded message is a frame for any chunking exactly when its BeginString has at most 60 bytes and its body is within the limit |
| FixFraming.EncodedStream | exchangesim/fix/message.py:199-325 | a stream of such messages, in any chunks, comes out message by message, raising nothing and keeping the incomplete tail |
| FixFraming.LongBeginStringRefused | exchangesim/fix/message.py:199-223 | a longer BeginString is read at once and refused in two chunks |
| FixIntegrity.SumJoins | exchangesim/fix/message.py:181-196 | the sum of two stretches of bytes is the sum of their sums |
| FixIntegrity.SumOfByte | exchangesim/fix/message.py:181-196 | and that of one byte is the byte |
| FixIntegrity.ByteErrorRefused | exchangesim/fix/message.py:250-294 | an encoded message in which one byte before the checksum is changed is never decoded |
| FixIntegrity.DecodedIsWhole | exchangesim/fix/message.py:250-294 | what is decoded ends its last field, carries a checksum field, the right one if that is looked at, begins with BeginString and has a MsgType |
| FixIntegrity.FieldExactly | exchangesim/fix/message.py:266-283 | a chunk is a field exactly when a positive number stands before its first equals sign |
| FixIntegrity.ExtractExactly | exchangesim/fix/message.py:199-247 | a message is taken off exactly where its length says, if that is a number in range and the checksum tag stands there |
| FixIntegrity.JunkSkipped | exchangesim/fix/message.py:199-223 | bytes in front of the first 8= are skipped, and at most 64 are waited through without one |
| FixIntegrity.LengthAwaited | exchangesim/fix/message.py:199-232 | behind 8= the length is waited for, through at most 64 bytes until its tag has come |
| IntegerTexts.IntReads | exchangesim/fix/message.py:99-107 | a text reads as n exactly when it is blanks, a sign, groups of digits joined by single underscores, and blanks, whose digits say n |
| IntegerTexts.BytesAndText | exchangesim/wire/values.py:71-78 | blanks are the ASCII ones in bytes and in a string of ASCII, and the Latin-1 ones in any other |
| IntegerTexts.BlanksAre | exchangesim/wire/values.py:71-78 | which bytes those are |
| FixObjects.Message.Get | exchangesim/fix/message.py:89-93 | the first value of the tag, if it has one |
| FixObjects.Message.Set | exchangesim/fix/message.py:129-139 | the first field of the tag is replaced, or one is appended |
| FixObjects.PutValues | exchangesim/fix/message.py:129-139 | setting changes the first value of its own tag and no other value |
| FixObjects.Message.Remove | exchangesim/fix/message.py:152-156 | every field of the tag goes |
| FixObjects.WithoutValues | exchangesim/fix/message.py:152-156 | and every other tag keeps its values |
| FixObjects.Ordered | exchangesim/fix/message.py:166-178 | the loop and the stable sort give the order of transmission |
| FixObjects.Decoded | exchangesim/fix/message.py:250-294 | the decoding loop gives what the specification does, refusals included |
| Numerals.ParseShown | exchangesim/fix/message.py:99-107 | a number printed reads back |
| Numerals.PlainNumeralExact | exchangesim/wire/values.py:71-78 | a text that reads as a number is the one it is printed as exactly when it has no plus sign, blank, underscore, leading zero or minus zero |
| Scaling.ScaleUnscale | exchangesim/wire/values.py:16-47 | scaling what was unscaled gives the number back, for any number and places |
| Scaling.PlainDecimalExact | exchangesim/wire/values.py:16-47 | a text that means a number is the one unscaling prints exactly when it is a plain decimal |
| Scaling.UnscaleShortest | exchangesim/wire/values.py:38-47 | the string is the shortest that means the number exactly when the number is zero or has a whole part |
| Checksums.StepsXor | exchangesim/binary/types.py:221-229 | division steps are linear |
| Checksums.LookUp | exchangesim/binary/types.py:235-245 | one look-up in the table is eight division steps |
| Checksums.BitsAreSteps | exchangesim/binary/types.py:235-245 | taking message bits one at a time is dividing their sum with the register |
| Checksums.Table | exchangesim/binary/types.py:221-229 | each table entry is eight division steps of its index |
| Checksums.Crc | exchangesim/binary/types.py:235-245 | the table loop computes the bit-at-a-time CRC32C of the whole message |
| CrcDivision.CrcIsRemainder | exchangesim/binary/types.py:221-245 | the checksum is the complement of the remainder of dividing the message's bits, the first 32 complemented, by the Castagnoli polynomial |
| CrcDivision.PolynomialIs | exchangesim/binary/types.py:218-229 | that polynomial, read lowest power first |
| CrcErrors.BurstCaught | exchangesim/binary/types.py:235-245 | a message damaged within four bytes in a row never keeps its checksum |
| Presence.ReadsWritten | exchangesim/binary/types.py:189-216 | positions written are the positions read, in order |
| Presence.WritesRead | exchangesim/binary/types.py:189-216 | any map is what writing the positions read from it gives |
| Presence.ReadPresence | exchangesim/binary/types.py:189-205 | the loop over bytes and bits finds exactly the set positions, or nothing where the message ends early |
| Presence.WritePresence | exchangesim/binary/types.py:208-216 | the loop sets exactly the positions given, or fails where one does not fit |
| WireTypes.LittleRoundTrip | exchangesim/binary/types.py:56-76 | a number in range reads back from its little-endian bytes |
| WireTypes.UnpackPacked | exchangesim/binary/types.py:56-182 | every type gives back what it packed, as it normalises it, wherever in a message it stands, and stops right behind it |
| WireTypes.AlphaFixedExact | exchangesim/binary/types.py:123-153 | a fixed text field keeps a value exactly when it leaves room for the terminator and holds no NUL |
| WireBytes.PacksExactly | exchangesim/binary/types.py:56-182 | which values each type takes: numbers its width holds, single characters, text short enough for its length |
| WireBytes.WritesExactly | exchangesim/binary/types.py:56-182 | every value taken is written byte by byte as its type says |
| BinaryFrames.AnyChunks | exchangesim/binary/message.py:134-162 | any stream in any chunks gives the same frames and tail, or is refused either way |
| BinaryFrames.UnpacksPacked | exchangesim/binary/message.py:89-131 | a packed frame has the length it declares, is taken off whole, and gives back header, map and body |
| BinaryFrames.PackedFramed | exchangesim/binary/message.py:57-126 | a packed frame is a frame for any chunking |
| NnfPackets.AnyChunks | exchangesim/nnf/packet.py:150-178 | any stream in any chunks gives the same packets and tail, or is refused either way |
| NnfPackets.UnpacksPacked | exchangesim/nnf/packet.py:109-147 | a packet gives back its sequence number, checksum and data |
| NnfPackets.PackedFramed | exchangesim/nnf/packet.py:81-147 | a packed packet is a frame exactly when it holds at least forty bytes of data |
| FrameBytes.FramePacks | exchangesim/binary/message.py:115-126 | a frame is packed exactly when body, type and number fit their fields |
| FrameBytes.FrameIs | exchangesim/binary/message.py:115-126 | and then stands byte for byte as laid out, ending in the checksum of all before it |
| FrameBytes.HeaderNeeds | exchangesim/binary/message.py:89-112 | a header is read exactly off a frame that begins 02, is as long as it says, and, if that is looked at, ends in the right checksum |
| FrameBytes.DamageRefused | exchangesim/binary/message.py:89-112 | damage within four bytes in a row before the checksum is always refused |
| FrameBytes.SplitsFrames | exchangesim/binary/message.py:57-86 | when a buffer holds a frame, is refused, or is waited for |
| FrameBytes.SplitsPackets | exchangesim/nnf/packet.py:81-106 | likewise for packets, whose length must lie between 62 and 1024 |
| FrameBytes.PacketIs | exchangesim/nnf/packet.py:127-147 | a packet is packed exactly when everything fits, highest byte first, under the checksum given or the digest of its data |
| LayoutRoundTrip.EntryBack | exchangesim/binary/layout.py:47-189 | a field or block packed anywhere in a message unpacks to the fields it was packed from, nested blocks included |
| LayoutRoundTrip.FieldsBack | exchangesim/binary/layout.py:209-238 | a list of entries reads back by its map |
| LayoutRoundTrip.MapBack | exchangesim/binary/layout.py:228-238 | the map written reads as the bits of the entries present |
| LayoutValues.DecodesEncoded | exchangesim/binary/layout.py:209-238 | an encoded body of values spelled as their fields carry them, framed, is accepted and adds exactly what the encoding carries |
| LayoutValues.BodyRoundTrip | exchangesim/binary/layout.py:209-238 | every tag of the layout comes back with the same values in the same order, when each is spelled as its field carries it and the counts cover the repeats |
| LayoutValues.PlainKept | exchangesim/binary/layout.py:151-189 | a field of a block keeps its values exactly when there are no more than entries and none is empty |
| LayoutValues.DecodeLeavesOthers | exchangesim/binary/layout.py:209-226 | whatever the frame, accepted or refused part-way, every tag the layout does not use keeps its values |
| LayoutLimits.EncodesExactly | exchangesim/binary/layout.py:97-238 | a message is written exactly when every entry it has fits its map, its text is one its converter and type take, every count fits two bytes, and no block in use stands in several entries |
| LayoutLimits.ShortRefused | exchangesim/binary/layout.py:209-226 | a frame too short for its map and checksum is refused |
| LayoutSpelling.RestoresExactly | exchangesim/wire/values.py:61-125 | a text that packs comes back as it was exactly when its spelling is one its converter and type carry, for every converter on every type |
| LayoutSpelling.PlainTextRestores | exchangesim/wire/values.py:61-68 | text survives exactly when it fits its field and holds no NUL |
| LayoutSpelling.NumberRestores | exchangesim/wire/values.py:71-78 | a number survives exactly when it is a plain numeral, and in a text field fits it |
| LayoutSpelling.CharacterRestores | exchangesim/wire/values.py:81-90 | a single character survives exactly in a number field |
| LayoutSpelling.FlagRestores | exchangesim/wire/values.py:93-100 | a flag in a number field survives exactly when it is Y or N |
| LayoutSpelling.EnumRestores | exchangesim/wire/values.py:103-125 | an enumeration's text whose wire value the field keeps survives exactly when it is the first listed with that value |
| LayoutSpelling.QuantityRestores | exchangesim/wire/values.py:16-47 | a quantity survives exactly when it is a plain decimal, and its scaled number fits a text field |
| LayoutSpelling.SpelledExactly | exchangesim/binary/layout.py:47-189 | the values of a field or block, nested ones included, all survive exactly when each is so spelled |
| LayoutCodec.Encode | exchangesim/binary/layout.py:228-238 | the loops over fields, blocks and entries give the specified map and body, failures included |
| LayoutCodec.Decode | exchangesim/binary/layout.py:209-226 | reading a frame onto a message in place accepts what the specification does and leaves the message it does, as far as it was read when it is refused |
| Divisibility.Bezout | exchangesim/tls/rsa.py:98-108 | the greatest common divisor is a combination of the two numbers |
| Divisibility.GcdGreatest | exchangesim/tls/rsa.py:98-108 | every common divisor divides it |
| Fermat.FermatLittle | exchangesim/tls/rsa.py:130-159 | Fermat's little theorem, from the binomial theorem |
| Fermat.SquareRoots | exchangesim/tls/rsa.py:130-159 | modulo a prime only 1 and -1 square to 1 |
| RsaKeys.ExtendedGcd | exchangesim/tls/rsa.py:98-108 | the loop gives the greatest common divisor and a coefficient of it |
| RsaKeys.ModInv | exchangesim/tls/rsa.py:111-121 | an inverse is returned exactly when the numbers have no common divisor, and it is one |
| RsaKeys.InverseMeansCoprime | exchangesim/tls/rsa.py:111-121 | where the program raises no inverse exists: having one means having no common divisor |
| RsaKeys.InverseUnique | exchangesim/tls/rsa.py:111-121 | there is only one |
| RsaKeys.LcmIs | exchangesim/tls/rsa.py:124-127 | what is computed is a common multiple |
| RsaKeys.LcmLeast | exchangesim/tls/rsa.py:124-127 | and divides every other |
| RsaKeys.MakeKey | exchangesim/tls/rsa.py:277-315 | two distinct primes and an exponent give a key meeting the key equations exactly when the exponent has an inverse |
| RsaKeys.RsaIdentity | exchangesim/tls/rsa.py:218-241 | for every number below the modulus, multiples of its primes included, each exponent undoes the other |
| RsaKeys.PartsRecombine | exchangesim/tls/rsa.py:300-315 | recombining from the two primes equals the private operation on every number exactly when both primes are odd |
| Primality.Sieve | exchangesim/tls/rsa.py:55-68 | the array loop returns exactly the primes below the limit, ascending |
| Primality.PrimesBelowIn | exchangesim/tls/rsa.py:55-68 | a number is in that list exactly when it is a prime below the limit |
| Primality.PrimePasses | exchangesim/tls/rsa.py:144-159 | every witness passes for a prime |
| Primality.IsProbablePrime | exchangesim/tls/rsa.py:130-159 | trial division and the rounds of squaring, early exits included, answer as specified for whatever is drawn |
| Primality.PrimesAccepted | exchangesim/tls/rsa.py:130-159 | a prime is never turned away |
| Primality.ExactBelowSquare | exchangesim/tls/rsa.py:130-159 | below the square of the sieve's limit the answer is exact whatever is drawn |
| Witnesses.AcceptedExactly | exchangesim/tls/rsa.py:130-159 | a number without small prime factors is accepted exactly when every witness drawn meets Fermat's congruence and no halving of the exponent shows a square root of 1 other than 1 and -1 |
| Witnesses.RoundExact | exchangesim/tls/rsa.py:144-159 | so for each round |
| Witnesses.SmallExactly | exchangesim/tls/rsa.py:130-159 | a number with a small prime factor is accepted exactly when it is that prime |
| Witnesses.FactorTells | exchangesim/tls/rsa.py:144-159 | a witness sharing a factor with the number always tells, so every composite can be refused |
| Witnesses.SquareOfPrimeRefused | exchangesim/tls/rsa.py:144-159 | the square of 2003, beyond trial division, is refused by the witness 2 |
| Keystream.ApplyKeystream | exchangesim/nnf/crypto.py:258-273 | the loop over blocks applies the key stream from any byte position |
| Keystream.Resumes | exchangesim/nnf/crypto.py:258-273 | applying it to two messages one after the other is applying it to their concatenation |
| Keystream.AppliedTwice | exchangesim/nnf/crypto.py:275-288 | applied again from the same position it gives the data back |
| Keystream.IncrementsAgree | exchangesim/nnf/crypto.py:275-288 | adding one over 128 bits and over the low 32 agree exactly when those are not all ones |
| Ciphers.StaysInStep | exchangesim/nnf/crypto.py:310-331 | over any interleaving of seals and opens, what goes in on one side comes out on the other, in order, unchanged, nothing refused |
| Ciphers.ExistingLockstep | exchangesim/nnf/crypto.py:355-389 | so for the cipher with one running key stream |
| Ciphers.NewLockstep | exchangesim/nnf/crypto.py:392-501 | and for the one with walking IVs, in either direction |
| Ciphers.IvSame | exchangesim/nnf/crypto.py:482-485 | two IVs are equal exactly when their counters are a multiple of 2^64 apart |
| Ciphers.IvsNeverReused | exchangesim/nnf/crypto.py:453-501 | no IV is used twice, in either direction, exactly while fewer than 2^64 messages have been sealed, or as many by one end alone |
| Ciphers.ExistingCipher.Seal | exchangesim/nnf/crypto.py:376-381 | sealing in place produces the specified packet and moves the outbound position |
| Ciphers.ExistingCipher.Open | exchangesim/nnf/crypto.py:383-389 | opening returns the message or refuses it, and moves the inbound position either way |
| Ciphers.NewCipher.Seal | exchangesim/nnf/crypto.py:487-491 | the k-th message is sealed under the k-th IV of its direction |
| Ciphers.NewCipher.Open | exchangesim/nnf/crypto.py:493-501 | and opened under the same |
| Sealing.StreamByte | exchangesim/nnf/crypto.py:253-273 | each byte is added without carry to the byte of the key stream at its position, whose counter has its low 32 bits moved on |
| Sealing.ExistingSealed | exchangesim/nnf/crypto.py:376-381 | a packet is the message under the key stream from the place reached, with the digest of the message |
| Sealing.ExistingOpens | exchangesim/nnf/crypto.py:383-389 | a packet opens to a message exactly when it is what sealing that message at that place gives |
| Sealing.IvIs | exchangesim/nnf/crypto.py:482-485 | an IV is its fixed half and the counter, wrapped to 64 bits, in the connection's byte order |
| Sealing.NewSealed | exchangesim/nnf/crypto.py:275-294 | the tag is over what travels and the additional data, and the stream begins one behind the IV's hash |
| Sealing.NewOpens | exchangesim/nnf/crypto.py:493-501 | a packet opens to a message exactly when it is what sealing that message under that IV gives |
| Sealing.NthMessage | exchangesim/nnf/crypto.py:453-501 | after any messages the next of a direction goes under the IV one step further from the start, up one way and down the other |
| Sealing.StreamRunsOn | exchangesim/nnf/crypto.py:355-389 | one key stream runs through all messages of a direction |

## Left out

- ContinuousTrading.RunStaysContinuous: runs in which every entry and amendment may match; phases that only accumulate end with an auction, which AuctionOpensTheDay covers.
- Recovery.RecoveryComposes: what the receiver has queued is what the sender sent, no queued Logout among it, and the replay arrives complete and in order.
- ExactlyOnce.DeliversExactlyOnce: runs of application messages with repeats flagged as such; resets, Logons and unflagged repeats are covered by DeliversInOrder.
- Primality.IsProbablePrime: the witnesses are an input; PrimesAccepted and ExactBelowSquare take them in the range the program draws from.
- Ciphers.NewLockstep: one fixed byte order for the counter in the IV; the detection of the peer's order is not modelled.
- Trading states and phases (who may enter, MARKET_CLOSED), instrument lookup, market-wide cancels, uncrossing several instruments and expiry at the end of the day.
- Validation limits, price bands, injected behaviour, the ClOrdID registry; an order handed to the engine has a fresh id, positive open quantity and a price unless it is a market order.
- An auction's result text, imbalance side and candidate list; depth, ladder and other views of the book; the trade tape.
- Self-trade and order attributes as strings: participants and self-match keys are numbers, 0 for absent.
- The branch of the auction's inner loop for a seller with nothing left, which is never reached because such sellers are behind the index.
- Time stamps, logging, the audit recorder and published notifications.
- FIX dictionary validation, CompID checks, EncryptMethod and HeartBtInt at Logon, heartbeat timers and test requests: a message is valid or not.
- FileStore; the memory store keeps each message's kind and body in place of its bytes.
- Text as Unicode: messages are bytes, and Python's limit on the digits of `int()` is not modelled.
- The converter of several values at once, fields with getters and setters, the header mapping of the binary codec and the message tables.
- AES, GHASH, MD5 and SHA-256 are any functions; the padding of a signature and the DER and PEM forms of a key are not modelled.
- Random bits and the search for primes: two distinct primes are inputs to a key.
- Sockets, reactor, TLS, web board, command line, configuration and process control.
