# PGM map voting, modelled in Dafny

This project models the engine PGM uses to choose the next map of a voting
rotation pool. It has four parts.

- A **VoterSet** holds the players voting for one map. It caches a weighted
  count in which a premium player counts 2 and everyone else 1.
- A **MapPoll** is one open vote. It holds an insertion-ordered table from
  each offered map to its VoterSet. Players toggle their votes, and the most
  voted map wins. Ties go to the map offered first.
- **DefaultMapVotePicker** builds a poll's shortlist of at most 5 maps. It
  samples by weight without replacement: each draw lays the remaining maps on
  a line of cumulative weights (score squared, floored at `Double.MIN_VALUE`),
  draws a point below the total and takes the first entry above it.
- A **VotingPool** owns the score table and the running poll.
  - After every match, each score moves one step of `0.2 / |maps|` toward the
    default 0.2, and the map just played is pinned to 0.
  - After a poll, each offered map's score becomes its unweighted share of
    the poll's distinct voters.
  - `popNextMap` resolves and clears the poll.

Files:

- `common.dfy`: ids, `Option`/`Result`, the abstract constant `EPS`.
- `voter_set.dfy`: class `VoterSet`, with a validity invariant on its cache.
- `map_poll.dfy`: class `MapPoll`, the winner function and the toggle
  function.
- `vote_picker.dfy`: the picker, written both as functions (`Draw`, `Picks`)
  and as loops proved equal to them (`PickMaps`).
- `voting_pool.dfy`: class `VotingPool`, the tick and redistribution
  functions and their lemmas.

Maps and player UUIDs are modelled as integers, since the engine only
compares them for equality. Java `double`s are modelled as reals.

Behaviour of the code that the model keeps, each with the lemma that states it:

- **A poll nobody voted in still has a winner.** It is the first option, because
  `Stream.max` over equal counts keeps the earliest entry
  (`MapPolls.AllTiedFirstWins`).
- **Every option of a finished poll gets a new score.** An option with no
  voters gets `EPS`, as long as somebody voted in the poll
  (`VotingPools.RedistributedScores`).
- **Shares use unweighted voter counts.** When a premium voter picks one map
  and a plain voter another, the premium map wins the poll 2 to 1
  (`VotingPools.PremiumVoteWins`), yet both maps get the new score 1/2
  (`VotingPools.SharesIgnorePremium`).
- **Scores stay in [0, 1].** A tick keeps every score in [0, 1]
  (`VotingPools.TickedInUnitRange`), and so does a redistribution
  (`VotingPools.RedistributedInUnitRange`). A redistribution can raise a score
  above the default 0.2, up to 1.
- **The pool can run either picker.** `VotingPools.VotingPool.StartPoll` takes
  `skipZero`: with `false` it builds the shortlist as the code is written, with
  `true` as corrected (see Findings).

## Model

| member | source | states |
|---|---|---|
| VoterSets.VoteWeight | src/main/java/tc/oc/util/collection/VoterSet.java:46-48 | a voter counts 1 or 2, and 2 exactly when premium (offline players count 1) |
| VoterSets.Tally | src/main/java/tc/oc/util/collection/VoterSet.java:43-49 | the weighted sum of a set of voters; it is 0 exactly for an empty set |
| VoterSets.TallyAdd | src/main/java/tc/oc/util/collection/VoterSet.java:43-49 | adding an absent voter raises the weighted sum by exactly that voter's weight |
| VoterSets.TallyBounds | src/main/java/tc/oc/util/collection/VoterSet.java:31-33 | size ≤ weighted count ≤ 2·size, and the count is 0 iff the set is empty |
| VoterSets.VoterSet.constructor | src/main/java/tc/oc/util/collection/VoterSet.java:13-14 | a new set has no voters and no cached count |
| VoterSets.VoterSet.Add | src/main/java/tc/oc/util/collection/VoterSet.java:16-20 | returns true iff the id was absent; afterwards the id is contained and the set grows by that id alone; the cache is dropped only on a real change; the cache invariant holds |
| VoterSets.VoterSet.Remove | src/main/java/tc/oc/util/collection/VoterSet.java:22-25 | the id is absent, the rest unchanged, and the cache is dropped whether or not the id was present |
| VoterSets.VoterSet.Contains | src/main/java/tc/oc/util/collection/VoterSet.java:27-29 | true exactly for a current voter; a set that contains someone has positive size |
| VoterSets.VoterSet.Size | src/main/java/tc/oc/util/collection/VoterSet.java:31-33 | the number of distinct voters: 0 exactly when nobody votes, and a cached count lies between it and twice it |
| VoterSets.VoterSet.GetVotes | src/main/java/tc/oc/util/collection/VoterSet.java:35-37 | returns the weighted sum of the voters and caches it; a cached value is returned as is; size ≤ n ≤ 2·size and n = 0 iff nobody votes |
| VoterSets.VoterSet.UpdateVotes | src/main/java/tc/oc/util/collection/VoterSet.java:43-50 | the loop's sum equals the weighted sum of the voters, and it is cached |
| VoterSets.GetVotesTwice | src/main/java/tc/oc/util/collection/VoterSet.java:35-37 | two reads with no change in between return the same weighted count |
| MapPolls.Dedup | src/main/java/tc/oc/pgm/rotation/vote/MapPoll.java:43-47 | the keys of the LinkedHashMap are the given maps, each once, and no more of them than were given |
| MapPolls.DedupKeepsFirstOccurrenceOrder | src/main/java/tc/oc/pgm/rotation/vote/MapPoll.java:45-47 | options keep first-occurrence order: an earlier option appears in the list before every occurrence of a later one |
| MapPolls.DedupOfDistinct | src/main/java/tc/oc/pgm/rotation/vote/MapPoll.java:45-47 | a list without repetitions becomes the options unchanged, in its own order |
| MapPolls.MaxIndex | src/main/java/tc/oc/pgm/rotation/vote/MapPoll.java:141-143 | the reduction of `Stream.max` picks a count at least every other, with every earlier count strictly smaller (the first maximum) |
| MapPolls.ArgMax | src/main/java/tc/oc/pgm/rotation/vote/MapPoll.java:141-143 | the left-to-right loop that replaces the best only on a strictly larger count ends at that first maximum |
| MapPolls.MaxIndexIsUnique | src/main/java/tc/oc/pgm/rotation/vote/MapPoll.java:141-143 | "a maximum with no earlier equal" singles out one position |
| MapPolls.AllTiedFirstWins | src/main/java/tc/oc/pgm/rotation/vote/MapPoll.java:141-144 | when all counts are equal (nobody voted), the first option wins |
| MapPolls.Winner | src/main/java/tc/oc/pgm/rotation/vote/MapPoll.java:139-145 | the most voted option: None exactly when there are no options, otherwise one of the options |
| MapPolls.WinnerIsFirstMostVoted | src/main/java/tc/oc/pgm/rotation/vote/MapPoll.java:139-145 | the winner is None iff there are no options; otherwise it is an option whose weighted count is ≥ every option's, and no earlier option ties it |
| MapPolls.Toggled | src/main/java/tc/oc/pgm/rotation/vote/MapPoll.java:130-137 | a toggle changes only the targeted map's voters, flips the player's membership there, and leaves the other voters of that map alone |
| MapPolls.ToggleTwiceRestores | src/main/java/tc/oc/pgm/rotation/vote/MapPoll.java:134-136 | two toggles of the same (map, player) answer opposite values and restore the voters exactly |
| MapPolls.Flip | src/main/java/tc/oc/pgm/rotation/vote/MapPoll.java:134-136 | add, then remove if the add changed nothing: true iff the player was absent, who is then added, and otherwise removed |
| MapPolls.NewOptions | src/main/java/tc/oc/pgm/rotation/vote/MapPoll.java:47 | the forEach of puts yields the options in first-occurrence order, each mapped to its own fresh empty VoterSet |
| MapPolls.MapPoll.constructor | src/main/java/tc/oc/pgm/rotation/vote/MapPoll.java:45-48 | the options are the given maps in first-occurrence order, each with a fresh empty VoterSet and no cached count |
| MapPolls.MapPoll.ToggleVote | src/main/java/tc/oc/pgm/rotation/vote/MapPoll.java:130-137 | a map that is not an option fails with NotAnOption and changes no voters; otherwise returns true iff the player was absent and the ballots become the toggled ballots; other options' caches are untouched |
| MapPolls.MapPoll.CountVotes | src/main/java/tc/oc/pgm/rotation/vote/MapPoll.java:142 | one option's count read through its VoterSet is its weighted tally, and no voter set changes |
| MapPolls.MapPoll.CountAll | src/main/java/tc/oc/pgm/rotation/vote/MapPoll.java:141-142 | the counts of all options, in option order, are their weighted tallies; no voter set changes |
| MapPolls.MapPoll.GetMostVotedMap | src/main/java/tc/oc/pgm/rotation/vote/MapPoll.java:140-145 | returns the winner of the current ballots (None with no options) and changes no voter set |
| MapPolls.MapPoll.FinishVote | src/main/java/tc/oc/pgm/rotation/vote/MapPoll.java:152-160 | returns getMostVotedMap's winner and leaves every voter set as it was |
| MapPolls.FinishVoteTwice | src/main/java/tc/oc/pgm/rotation/vote/MapPoll.java:152-160 | finishing a poll twice returns the same winner both times and changes no ballots |
| MapPolls.MapPoll.Ballots | src/main/java/tc/oc/pgm/rotation/vote/MapPoll.java:162-164 | the `getVotes` table has the keys of `votes`; in a well-formed poll (`Shape()`) those keys are exactly the options |
| VotePicker.Weigh | src/main/java/tc/oc/pgm/rotation/vote/DefaultMapVotePicker.java:39-41 | the weight is 0 for a missing or non-positive score; otherwise it is positive, at least EPS and at least score², and equal to one of them |
| VotePicker.HigherKey | src/main/java/tc/oc/pgm/rotation/vote/DefaultMapVotePicker.java:28-29 | higherEntry finds the least key strictly above x, and returns null exactly when no key is above x |
| VotePicker.Draw | src/main/java/tc/oc/pgm/rotation/vote/DefaultMapVotePicker.java:23-31 | a draw picks a remaining map from the iteration order (one with positive score when zero weights are skipped), and for a draw in [0, 1) it picks one iff the remaining total weight is positive |
| VotePicker.TotalGrows | src/main/java/tc/oc/pgm/rotation/vote/DefaultMapVotePicker.java:24-26 | the running maxWeight starts at 0 and never decreases |
| VotePicker.TotalPositiveIff | src/main/java/tc/oc/pgm/rotation/vote/DefaultMapVotePicker.java:24-26 | the total weight is positive iff some visited remaining map has a positive score |
| VotePicker.Tree | src/main/java/tc/oc/pgm/rotation/vote/DefaultMapVotePicker.java:23-27 | the cumulative TreeMap: every entry's map is one of the visited maps still remaining; with zero weights skipped, every entry's map has a positive score |
| VotePicker.TreeKeysBounded | src/main/java/tc/oc/pgm/rotation/vote/DefaultMapVotePicker.java:23-27 | every cumulative key lies in [0, total] |
| VotePicker.TotalIsKey | src/main/java/tc/oc/pgm/rotation/vote/DefaultMapVotePicker.java:26 | with a positive total, the total itself is a key of the TreeMap |
| VotePicker.PointBelowTotal | src/main/java/tc/oc/pgm/rotation/vote/DefaultMapVotePicker.java:29 | `Math.random() * maxWeight` is in [0, total) for a positive total and is 0 for a zero total |
| VotePicker.HigherKeyOnLine | src/main/java/tc/oc/pgm/rotation/vote/DefaultMapVotePicker.java:28-31 | on keys in [0, t] that include t when t > 0, the drawn point has an entry above it iff t > 0 |
| VotePicker.PickMadeIffPositiveTotal | src/main/java/tc/oc/pgm/rotation/vote/DefaultMapVotePicker.java:26-31 | higherEntry returns null (the loop breaks) exactly when the remaining total weight is 0 |
| VotePicker.PicksShape | src/main/java/tc/oc/pgm/rotation/vote/DefaultMapVotePicker.java:22-34 | the shortlist has at most k entries, no more than the input has keys, and no duplicates, and every entry is an input key |
| VotePicker.PicksEmptyIff | src/main/java/tc/oc/pgm/rotation/vote/DefaultMapVotePicker.java:24-31 | the shortlist is empty (the loop stops at once) iff no map has a positive score, an empty input included |
| VotePicker.PicksDrainPositive | src/main/java/tc/oc/pgm/rotation/vote/DefaultMapVotePicker.java:22-34 | when every map has a positive score, the shortlist takes min(k, draws, maps) maps, so a pool of five at 0.2 is drained completely |
| VotePicker.DrawFindsPositive | src/main/java/tc/oc/pgm/rotation/vote/DefaultMapVotePicker.java:26-31 | a draw over a non-empty copy whose scores are all positive always picks a map |
| VotePicker.CorrectedPicksArePositive | src/main/java/tc/oc/pgm/rotation/vote/DefaultMapVotePicker.java:26 | with zero weights left out of the TreeMap, every shortlisted map has a positive score |
| VotePicker.CorrectedPickInterval | src/main/java/tc/oc/pgm/rotation/vote/DefaultMapVotePicker.java:23-29 | with zero weights left out, the entry above x is the map whose own interval [total before it, total through it) contains x, so each map is picked with probability weight/total |
| VotePicker.LastEntryHit | src/main/java/tc/oc/pgm/rotation/vote/DefaultMapVotePicker.java:26-29 | a point at or past the total before the last map falls in the last map's entry, when that map was put |
| VotePicker.EarlierEntryHit | src/main/java/tc/oc/pgm/rotation/vote/DefaultMapVotePicker.java:26-29 | any other point finds the same entry as in the TreeMap over the earlier maps |
| VotePicker.Cumulate | src/main/java/tc/oc/pgm/rotation/vote/DefaultMapVotePicker.java:23-27 | the inner loop builds the cumulative TreeMap (a later put at an equal key replaces the earlier map) and ends with maxWeight equal to the total weight |
| VotePicker.HigherEntry | src/main/java/tc/oc/pgm/rotation/vote/DefaultMapVotePicker.java:28-29 | the scan over the keys returns higherEntry's key: the least key above x, or None |
| VotePicker.PickOne | src/main/java/tc/oc/pgm/rotation/vote/DefaultMapVotePicker.java:23-32 | one iteration of the outer loop (TreeMap, maxWeight, higherEntry) returns exactly Draw's pick |
| VotePicker.PickLoopIsPicks | src/main/java/tc/oc/pgm/rotation/vote/DefaultMapVotePicker.java:22-34 | the loop continued from iteration i appends the shortlist drawn from the remaining maps with the remaining draws |
| VotePicker.DrawAll | src/main/java/tc/oc/pgm/rotation/vote/DefaultMapVotePicker.java:22-34 | the outer loop with its break and removals returns the shortlist `Picks` over VOTE_OPTIONS draws |
| VotePicker.PickMaps | src/main/java/tc/oc/pgm/rotation/vote/DefaultMapVotePicker.java:16-37 | pickMaps returns `Picks` over the caller's scores (which, as a value, cannot change); at most 5 maps, no more than the input has, distinct, all input keys; empty iff no score is positive; min(5, maps) when all scores are positive |
| VotePicker.SingleKeyFound | src/main/java/tc/oc/pgm/rotation/vote/DefaultMapVotePicker.java:28-29 | a TreeMap with one positive key w returns that key for every draw |
| VotePicker.ZeroWeightOverwriteAsWritten | src/main/java/tc/oc/pgm/rotation/vote/DefaultMapVotePicker.java:26 | as written, scores {1: 0.2, 2: 0} visited in order 1, 2 make every draw pick the zero-weight map 2 |
| VotePicker.ZeroWeightSkippedCorrected | src/main/java/tc/oc/pgm/rotation/vote/DefaultMapVotePicker.java:26 | corrected, the same scores make every draw pick map 1, the only map with positive weight |
| VotingPools.AdjustFactor | src/main/java/tc/oc/pgm/rotation/pools/VotingPool.java:34 | ADJUST_FACTOR is positive and `|maps|` steps of it add up to DEFAULT_SCORE |
| VotingPools.Decay | src/main/java/tc/oc/pgm/rotation/pools/VotingPool.java:55-57 | one tick moves a score one step closer to 0.2, stopping at 0.2, and keeps it on its side of 0.2 |
| VotingPools.DecaysConverge | src/main/java/tc/oc/pgm/rotation/pools/VotingPool.java:53-57 | after n ticks the distance to 0.2 has shrunk by n steps, down to 0, and the score never crosses 0.2 |
| VotingPools.PinnedMapRecovers | src/main/java/tc/oc/pgm/rotation/pools/VotingPool.java:53-58 | a score pinned to 0 is back at 0.2 after as many ticks as the pool has maps |
| VotingPools.Ticked | src/main/java/tc/oc/pgm/rotation/pools/VotingPool.java:50-59 | tickScores keeps the key set of the table |
| VotingPools.TickedScores | src/main/java/tc/oc/pgm/rotation/pools/VotingPool.java:50-59 | a map outside the table leaves the table unchanged; otherwise the played map is 0, and every other map moves one step toward 0.2 without crossing it |
| VotingPools.TickedInUnitRange | src/main/java/tc/oc/pgm/rotation/pools/VotingPool.java:53-58 | ticking keeps every score in [0, 1] |
| VotingPools.Ticks | src/main/java/tc/oc/pgm/rotation/pools/VotingPool.java:50-59 | repeated ticks keep the key set |
| VotingPools.RepeatedTicks | src/main/java/tc/oc/pgm/rotation/pools/VotingPool.java:53-58 | repeated ticks after the same map keep it at 0 and move every other score as n single-score ticks do |
| VotingPools.Voters | src/main/java/tc/oc/pgm/rotation/pools/VotingPool.java:62 | the distinct voters contain every option's voters, and each of them votes for some option |
| VotingPools.Share | src/main/java/tc/oc/pgm/rotation/pools/VotingPool.java:64 | a new score is size/voters or EPS, whichever is larger: it equals one of the two and is at least both; it lies in (0, 1] when size ≤ voters |
| VotingPools.PutShares | src/main/java/tc/oc/pgm/rotation/pools/VotingPool.java:64 | the puts of votes.forEach cover the old keys plus the options |
| VotingPools.Redistributed | src/main/java/tc/oc/pgm/rotation/pools/VotingPool.java:61-65 | the new table's keys are the old ones, plus the options when someone voted |
| VotingPools.PutSharesValues | src/main/java/tc/oc/pgm/rotation/pools/VotingPool.java:64 | the puts leave non-options alone and set each option to its own share |
| VotingPools.RedistributedScores | src/main/java/tc/oc/pgm/rotation/pools/VotingPool.java:61-65 | with no voters the table is unchanged; non-options keep their scores; otherwise each option gets max(size/voters, EPS), which is in (0, 1] |
| VotingPools.RedistributedKeys | src/main/java/tc/oc/pgm/rotation/pools/VotingPool.java:64 | when every option already has a score, redistribution adds no key |
| VotingPools.RedistributedKeepsTable | src/main/java/tc/oc/pgm/rotation/pools/VotingPool.java:61-65 | redistribution over pool maps keeps exactly the pool maps as keys, with scores in [0, 1] |
| VotingPools.RedistributedInUnitRange | src/main/java/tc/oc/pgm/rotation/pools/VotingPool.java:64 | redistribution keeps every score in [0, 1] |
| VotingPools.PremiumVoteWins | src/main/java/tc/oc/pgm/rotation/vote/MapPoll.java:141-143 | a premium vote for map 1 beats a plain vote for map 2 (2 against 1) |
| VotingPools.SharesIgnorePremium | src/main/java/tc/oc/pgm/rotation/pools/VotingPool.java:62-64 | in that poll both maps get the same new score, 1/2: shares count each voter once, premium or not |
| VotingPools.DecayAll | src/main/java/tc/oc/pgm/rotation/pools/VotingPool.java:53-57 | replaceAll, in any visiting order, ticks every score exactly once |
| VotingPools.PollVoters | src/main/java/tc/oc/pgm/rotation/pools/VotingPool.java:62 | the flatMap/distinct over the poll's voter sets yields the distinct voters |
| VotingPools.PutAll | src/main/java/tc/oc/pgm/rotation/pools/VotingPool.java:64 | the forEach loop over the options yields the puts of their shares |
| VotingPools.RedistributeAll | src/main/java/tc/oc/pgm/rotation/pools/VotingPool.java:61-65 | updateScores' computation, early return included, yields the redistributed table |
| VotingPools.VotingPool.constructor | src/main/java/tc/oc/pgm/rotation/pools/VotingPool.java:32-39 | every pool map, and nothing else, scores DEFAULT_SCORE; ADJUST_FACTOR is 0.2/|maps|; no poll runs |
| VotingPools.VotingPool.MapScore | src/main/java/tc/oc/pgm/rotation/pools/VotingPool.java:45-47 | a score exists iff the map is a pool map, and it lies in [0, 1] |
| VotingPools.VotingPool.TickScores | src/main/java/tc/oc/pgm/rotation/pools/VotingPool.java:50-59 | the table becomes the ticked table, and the pool invariant and the poll are kept |
| VotingPools.VotingPool.UnloadPool | src/main/java/tc/oc/pgm/rotation/pools/VotingPool.java:88-90 | unloading ticks the scores for the match's map |
| VotingPools.VotingPool.MatchEnded | src/main/java/tc/oc/pgm/rotation/pools/VotingPool.java:93-94 | a finished match ticks the scores for its map |
| VotingPools.VotingPool.StartPoll | src/main/java/tc/oc/pgm/rotation/pools/VotingPool.java:99-104 | no poll is created when an override map exists or a restart is queued; otherwise a fresh poll offers the picker's shortlist of the current scores (as written or corrected, by `skipZero`) with no votes, and the scores are unchanged; with the corrected picker every offered map has a positive score |
| VotingPools.VotingPool.UpdateScores | src/main/java/tc/oc/pgm/rotation/pools/VotingPool.java:61-65 | the table becomes the redistributed table of the poll's ballots, and the pool invariant is kept |
| VotingPools.VotingPool.PopNextMap | src/main/java/tc/oc/pgm/rotation/pools/VotingPool.java:67-75 | with no poll, returns the random map and keeps the scores; with a poll, redistributes the scores once by its ballots, returns the winner (or the random map when there is none), and clears the poll |
| VotingPools.VotingPool.NextMap | src/main/java/tc/oc/pgm/rotation/pools/VotingPool.java:77-80 | a voting pool never announces its next map in advance |
| VotingPools.VotingPool.SetNextMap | src/main/java/tc/oc/pgm/rotation/pools/VotingPool.java:82-85 | setting the next map by hand clears the poll and keeps the scores |

## Left out

- Rendering and broadcast are not modelled. This covers `announceWinner`, `getMapChatComponent`, `sendBook`, `getMapBookComponent`, and the `WeakReference<Match>` announcement in `finishVote`: chat, titles, books and NMS. Apart from the exception in the next line, they change no engine state.
- VotingPools.VotingPool.PopNextMap: for a poll with no options, `getMostVotedMap` returns null (MapPoll.java:144). While the match still has a player, `finishVote` then passes that null to `announceWinner`, which dereferences it (MapPoll.java:55-56) and throws. The exception leaves `popNextMap` at VotingPool.java:71, before the scores are redistributed, the poll is cleared or `getRandom()` is taken. The model does not capture the throw: it returns `random` and clears the poll. A one-map pool reaches this case, because its only map is pinned to 0 and every shortlist is then empty.
- The `runTaskLater` delay in `matchEnded` and the books sent to players are not modelled. `VotingPools.VotingPool.StartPoll` is the delayed task.
- `RestartManager.isQueued()` and the manager's override lookup are external state. They become the two booleans of `StartPoll`.
- `Bukkit.getPlayer`/`hasPermission` is an external call. It becomes the injected predicate `premium`.
- VoterSets.VoterSet.GetVotes: `premium` is fixed for a VoterSet's whole lifetime, so `Valid()` always holds and a cached count always equals the weighted count. In the code the count cached at VoterSet.java:36 can go stale when a voter disconnects or gains or loses the premium permission; the model does not capture that.
- `Math.random()` becomes the supplied `draws`, each in [0, 1).
- `HashMap` iteration order is unspecified. It becomes the `order` parameter, a duplicate-free listing of the keys. Removing a key keeps the order of the rest.
- `MapPool.getRandom()` and the `MapPool` base class are not part of this model. The random map is the `random` parameter of `PopNextMap`.
- Floating-point rounding is not modelled: scores and weights are reals. `Double.MIN_VALUE` is the abstract constant `EPS`, known only to lie in (0, 1/2].
- `VotingPool.getCurrentPoll`, `VoterSet.stream` and `MapPoll.getVotes` are field reads (`currentPoll`, `voters`, `votes`/`Ballots`).
- The `MapVotePicker` interface and the static `MAP_PICKER` field are replaced by a direct call to `VotePicker.PickMaps`.
- The `Comparator` in `getMostVotedMap` reads counts through `getVotes()` during the reduction. The model reads each option's count once, in option order. The result is the same, since reads only fill the caches.
- VotingPools.AdjustFactor: for an empty pool Java computes 0.2 / 0 = Infinity; the model uses 0. No tick can observe the difference, because an empty table tracks no map.
- `DatastoreImpl` and the other context files are not part of this model. They are SQL access, time and thin wrappers.

## Findings

| source | as written | input that shows it | evidently intended | confidence | as-written member | corrected member |
|---|---|---|---|---|---|---|
| src/main/java/tc/oc/pgm/rotation/vote/DefaultMapVotePicker.java:26 | a map of weight 0 is still put into the TreeMap, at the running total, which equals the previous map's key, so it replaces that map | scores {1: 0.2, 2: 0.0} (map 2 just played and pinned to 0), iteration order 1 then 2, any draw in [0, 1): the pick is map 2 | a zero-weight map is never picked, and the map before it keeps its interval; the pick is map 1 | high; not executed | VotePicker.ZeroWeightOverwriteAsWritten | VotePicker.CorrectedPicksArePositive |

`VotePicker.PickMaps` takes `skipZero` to model both versions. With `false`
it is the code as written: the overwrite happens, and
`VotePicker.ZeroWeightOverwriteAsWritten` exhibits it. With `true` a
zero-weight map is left out of the TreeMap. `VotePicker.CorrectedPicksArePositive`,
`VotePicker.ZeroWeightSkippedCorrected` and `VotePicker.CorrectedPickInterval`
(each map owns the interval of its own weight) prove the corrected behaviour.
`VotingPools.VotingPool.StartPoll` passes the same flag on, so the pool can be
run with either picker.
