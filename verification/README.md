# Solid IRCd: a verified model

Dafny models of the parts of the Solid IRC daemon in which state changes in place and several
functions must agree about it, and proofs of what they keep. The project is written for Dafny 4.11;
`dafny verify dfyconfig.toml` checks all of it.

## What is modelled

**The channel timestamp protocol.** A channel travels between servers as SJOIN and MODE lines.
`ModeLine` is one small interpreter of mode strings (sign, letters, parameters taken in order); it is
the specification of every printer: the difference lines of `m_sjoin` (`ChannelClass`, `Drafts`), the
echo of `set_mode` (`SetMode`, with `ModeEffect` for which changes are made, and `ModeRelay` for what
the next server makes of it), and the batched masks (`MaskBatch`). `Sjoin.Step` is what one server
does with one SJOIN; `ChannelClass.Channel` is the same as a class that edits its fields line by line.
On top of that: the mode merge is a join (`Merge`), a relayed SJOIN means downstream what the original
meant (`Relay`), a whole tree of servers ends up alike under every schedule (`Network`), a burst
rebuilds the channel (`Burst`, `Receiving`, `Lists`, `Exchange`), and two servers that burst at each
other converge under every interleaving (`Converge`).

**The tables of one server.** Memberships, invitations, the channel list, hash table and count
(`Membership`), ban lists with the cached ban test (`BanLists`), the wildcard matcher they rest on
(`Match`) and what collapsing does to a mask (`MaskMeaning`), the WATCH table (`Watch`), clone counts
(`Clones`), the hash functions (`Hash`).

**The allocator, the digest, the journal and the schedules.** The bitmap block heap (`Bits`,
`BlockHeaps`) refines a set of addresses in use; the streaming MD5 (`Md5`) refines RFC 1321
(`Rfc1321`); the K-line journal (`Klines`) recovers the stored bans; the autoconnect rotation
(`Autoconnect`) starves nobody; the link burst (`LinkBurst`) introduces before it mentions.

Linked lists are sequences held in fields, pointers to structures that are updated are object
references, strings are sequences of `char`, and C integers are unbounded except where a width shows
(timestamps printed as `int`, unsigned hashes and serial numbers, MD5 words, bitmap words). The clock,
`malloc` and the set of clients behind a link are parameters.

## Where the code does not do what it promises

Each of these is proved: an example, or a condition that holds exactly when the code is right.

- Three status prefixes are written (`src/channel.c:1337-1342`) but only two are read
  (`src/channel.c:5051-5056`): a member with op, halfop and voice loses the voice. Bursts restore all
  status exactly when nobody holds all three (`Exchange.RoundTrip`, `Converge.SameStatus`).
- A nick that is already a member is announced with the status it is listed with, and does not get it
  (`src/channel.c:5071-5131`): `Announcement.ClientsKnowTheChannel`, `Announcement.GhostOperator`.
- Nothing is passed on when no listed nick is accepted (`src/channel.c:5139`), although timestamp and
  modes may have changed: `Network.UnheardMessage` says exactly when that matters.
- A channel stamped zero refuses the other side's mask lists (`src/channel.c:1455-1461`):
  `Converge.SameListsAfter`.
- Raw join rates such as `0:5` and `0:3`, or `0:5` and none, merge differently in the two orders
  (`Merge.MergeNeedsNormal`). For everything an SJOIN can carry, the order matters exactly when both
  rates are switched off with different seconds, or when only one side has a rate and its number of
  joins is negative, or zero with positive seconds (`Merge.RawMergeCommutes`); the rates servers hold
  never clash (`Merge.MergeCommutes`).
- `collapse()` is not idempotent: `**?*` becomes `*?*` and then `*?` (`Masks.CollapseTwiceDiffers`), so
  some stored masks change when they travel; `Masks.CanonStable` says which. A burst restores the mask
  lists exactly when none of them holds such a mask (`Exchange.RoundTrip`); what that does to two
  linked servers is in `Converge.SameListsAfter` and `Converge.SwappedApart`. Which texts such a mask
  stands for never changes (`MaskMeaning.CollapseMeans`, `MaskMeaning.TravelledMeans`).
- The matcher takes `*!` and `*@` at the front as "up to the first separator", and gives up after 512
  calls. It never matches more than a mask means, and misses something only for text with two
  separators of a kind, or when its calls are used up (`Match.MatchesMeans`,
  `Match.FirstSeparatorOnly`); a mask with one star behind the shortcuts never uses them up
  (`Match.OneStarMeans`).
- An SJOIN with missing parameters returns early and leaves the channel it made without members
  (`src/channel.c:4687-4720`): exactly when the letters k, l and j among its modes are as many as its
  parameters, or more, and the channel is new (`Sjoin.EmptyChannelWhen`, `Membership.Server.SjoinEnter`).
- The trailing space of a burst line is meant to be cut off, but the test looks at the terminator just
  written (`src/channel.c:1346-1350`): the lines of `Burst.SendMembers` keep their space, and the
  reader skips it.
- A line that `set_mode` passes on is read by `set_mode` again, with the link's name in the length test
  and the letters and keys checked anew (`src/channel.c:1572-1574`, `src/channel.c:2259-2279`). The next
  server makes the same changes exactly when each passes there: its letter is allowed, a mask is
  stable, a key has no `*` or comma, and there is room (`ModeRelay.EchoTravels`). With the same rights
  and a name of the link no longer than the sender's, room is no condition (`ModeRelay.EchoTravelsAlike`).
- An SJOIN with a raw join rate is passed on with the rate "0" if one of its numbers is zero; and where
  our modes win, the "0" that is sent downstream lets a negative limit or a losing rate there give way.
  `Relay.RawFidelity` says exactly when the next server still ends up alike.
- The comment on channel hashing speaks of 30 characters; the loop looks at 29
  (`src/hash.c:91-108`): `Hash.OnlyTwentyNine`.
- After a restart a K-line's duration is what is left of it, and the compaction that follows drops
  bans of less than three hours (`src/userban.c:1670-1673`): a ban may survive one restart and not the
  second (`Klines.Store.RestartTwice`); `Klines.BackExactlyWhen` says which bans survive any number of
  restarts. The end of a ban is printed through 32 bits, so a temporary ban that is alive is read back
  as it was exactly when it ends before 2^31 seconds (`Klines.RestoredWhen`); one that ends before 2^32
  is read back as over, and one that ends at 2^32 comes back as permanent (`Klines.EndsTooLate`).
- The garbage collector of the block heap does remove the root block, although its comment denies it
  (`src/blalloc.c:282-283`): `BlockHeaps.BlockHeap.Collect` leaves exactly the blocks in use.
- A cached ban test is wrong only after a multiple of 2^32 edits, and the entry stamped at a join is
  right only if the member is not banned (`BanLists.Channel.TestAfter`, `BanLists.Channel.Stamp`).

## Model

| member | source | states |
|---|---|---|
| ModeLine.ReadMore | src/channel.c:1502-2455 | reading a mode string left to right, later parameters never change what earlier letters took |
| ModeLine.ApplyPlain | src/channel.c:4517-4535 | appending a sign or a plain letter to a printed line changes its meaning by exactly that sign or letter |
| ModeLine.ApplyWith | src/channel.c:4517-4535 | appending a letter and its parameter changes the meaning of a line by exactly that change |
| ModeLine.RateBack | src/channel.c:2039-2170 | a printed join rate is read back; 0 for either number reads as "off" |
| Text.StrtolBack | src/channel.c:4705-4718 | a number printed with %d and followed by a non-digit is read back, and reading stops where it ended |
| Text.StrtolMeans | src/channel.c:2101-2119 | strtol on any text: blanks, a sign or none, the value of the digits held within 64 bits, and what follows; without digits nothing is read |
| Text.CaseTables | src/match.c:150-212 | the two tables change the 26 letters by 32 and nothing else |
| Text.SameNameMeans | src/match.c:305-316 | two names are the same if and only if they have one length and differ at each place in the case of a letter at most |
| Text.LessMeans | src/channel.c:4788-4789 | strcmp: one text comes first if and only if it is a proper start of the other or smaller at the first difference |
| Merge.MergeIsJoin | src/channel.c:4785-4811 | merging two normalised modes gives their least upper bound, again normalised |
| Merge.MergeKeeps | src/channel.c:4785-4811 | what a merge keeps, written out: all flags, the higher limit, the key that comes first, and the rate that is off, or has more joins, or less time |
| Merge.MergeCommutes | src/channel.c:4785-4811 | the merge does not depend on which server's modes are "ours" |
| Merge.MergeAssociates | src/channel.c:4785-4811 | nor on the order in which three servers merge |
| Merge.MergeAbsorbs | src/channel.c:4785-4811 | merging again, or merging the empty mode, changes nothing |
| Merge.RawMergeCommutes | src/channel.c:4705-4811 | for any modes an SJOIN can carry, the order of merging matters if and only if the join rates clash in one of two ways |
| Merge.MergeNeedsNormal | src/channel.c:4785-4811 | an example of each of the two clashes |
| Merge.BelowOrder | src/channel.c:4785-4811 | the order behind the merge is a partial order with the empty mode at the bottom |
| MaskBatch.Printer.Put | src/channel.c:1162-1290 | one round of the batching loop keeps every line legal and loses no mask, whichever branch flushes |
| MaskBatch.PrintLists | src/channel.c:4291-4469 | the masks of all three lists are printed once each, in list order, under their letter, on lines within parameter and length limits |
| MaskBatch.ReplayMaskLines | src/channel.c:1162-1290 | however masks are packed into lines, reading the lines adds or removes exactly those masks in order |
| MaskBatch.DropAll | src/channel.c:4291-4469 | reading the removal of a whole list empties it |
| Drafts.Draft.InsertSign | src/channel.c:4517-4535 | the sign macro keeps the unsent line readable on its own, with the sign that is wanted |
| Drafts.Draft.PutStatus | src/channel.c:5078-5131 | a printed grant or removal, with its flush, keeps the events in step with what the clients should know |
| Relay.ModesRoundTrip | src/channel.c:1081-1160 | m_sjoin's parser reads back exactly the modes channel_modes prints, and stops at the nick list |
| Relay.RewrittenList | src/channel.c:5020-5083 | the rewritten nick list adds the same members with the same status, and is passed on unchanged once more |
| Relay.SettledTwice | src/channel.c:4733-4811 | the timestamp and mode decision comes out the same when the rewritten message is read one server on |
| Relay.StepGood | src/channel.c:4544-5153 | every step leaves modes that can be printed and read back |
| Relay.RelayFidelity | src/channel.c:4544-5153 | an SJOIN is passed on exactly when a listed nick was accepted, and a server in the same state that reads the passed-on message ends up in the same state and passes on the same message |
| Relay.ReadIsRaw | src/channel.c:4656-4720 | modes read from any message whose parameters are words have a printable key, numbers of type int, and numbers of a rate only with +j |
| Relay.RawFidelity | src/channel.c:4544-5153 | for any join rates and limits, the next server ends up in the same state and passes on the same message if and only if the settled rate has both numbers zero or neither, or, where "0" is sent because ours won, our limit and rate do not give way to none |
| Burst.RelayLength | src/channel.c:5139-5149 | the line passed on is at most 203 characters longer than the nick list that came, so a list of up to 307 goes out whole |
| Burst.PassedOnReads | src/channel.c:5139-5149 | read word by word up to the colon, the line passed on is the sender, SJOIN, the stamp, the channel, the letters and the parameters of the message |
| Sjoin.NoneAccepted | src/channel.c:5047-5079 | when no word is accepted no member is added |
| Sjoin.JudgeMeans | src/channel.c:4733-4811 | the older side's timestamp and modes win; with one timestamp or a zero the modes are merged |
| Sjoin.ShortWhen | src/channel.c:4681-4720 | parameters are missing if and only if the letters that take one are at least as many as the parameters |
| Sjoin.ParsedIsRaw | src/channel.c:4656-4720 | the numbers of a join rate come only with +j |
| Sjoin.EmptyChannelWhen | src/channel.c:4544-5153 | an SJOIN for a channel that does not exist leaves one without members if and only if its parameters are missing |
| Network.HandleKeeps | src/channel.c:4544-5153 | in a tree with FIFO links, any server handling its oldest message keeps "what remains to be heard leads each server to its parent's state" |
| Network.TreeAgrees | src/channel.c:5139-5149 | however the servers of a tree take turns, once all queues are empty every server holds what the burst made of the channel at the root |
| Network.UnheardMessage | src/channel.c:5139-5151 | the next server ends up in the same state if and only if some nick was accepted or the message brings nothing |
| ChannelClass.Channel.PrintFlags | src/channel.c:4813-4860 | the letters put on the line are the flags gained and then the flags lost, each once and no others, under the right sign |
| ChannelClass.Channel.SettleModes | src/channel.c:4813-4935 | the printed differences of flags, limit, key and join rate take the old modes to the new ones |
| ChannelClass.Channel.DeopAll | src/channel.c:4937-5018 | stripping prints every status held, with flushes, and leaves every member plain |
| ChannelClass.Channel.KillBanList | src/channel.c:4291-4469 | the lists are emptied, and the printed lines empty a view of them |
| ChannelClass.Channel.AddNicks | src/channel.c:5047-5132 | the loop over the nick list adds the accepted members, announces them, and collects the words passed on |
| ChannelClass.Channel.Receive | src/channel.c:4733-5149 | after the parameters are read: the new channel, the message passed on, and client lines that lead from the old view to the new one |
| ChannelClass.Channel.MSjoin | src/channel.c:4544-5153 | the in-place SJOIN handler refines Step, and its MODE lines, each readable on its own and within the parameter limit, replay to the announced view |
| Announcement.AnnouncedExactly | src/channel.c:5071-5131 | the announced status of every member is the real one if and only if nobody is listed with a status it neither gets nor holds |
| Announcement.ClientsKnowTheChannel | src/channel.c:4813-5138 | after an SJOIN the clients' view equals the server's channel if and only if the list is truthful |
| Announcement.GhostOperator | src/channel.c:5071-5131 | a plain member listed with '@' is announced as operator and stays plain |
| Masks.CanonShape | src/channel.c:5211-5226 | a stored mask is one word of at most 105 characters and pretty_mask changes it no more |
| Masks.MaskParts | src/channel.c:161-200 | the mask built from nick, user and host has three parts, each the longest start of its text without white space up to its length, or a star |
| Masks.PrettyForms | src/channel.c:5211-5226 | text without a separator is a host if it has a dot and else a nick; behind '!' is a user, and around '@' a user and a host |
| Masks.CollapseSplit | src/match.c:123-150 | collapsing works separately on the two sides of a plain character |
| Masks.CollapseStable | src/match.c:123-150 | collapsing a second time changes nothing if and only if no run of wildcards is lumpy |
| Masks.CollapseTwiceDiffers | src/match.c:123-150 | a mask that shrinks twice |
| Masks.CanonStable | src/channel.c:1884-1945 | a stored mask survives being set again by another server if and only if the parsed mask was not lumpy |
| Masks.CanonStored | src/channel.c:1884-1945 | whatever parameter set_mode accepts, what it stores has the form the list lines need |
| Masks.CollapseShortens | src/match.c:123-150 | collapsing leaves the text alone or makes it shorter |
| Masks.CollapseFold | src/match.c:123-150 | collapsing does not depend on letter case |
| MaskMeaning.CollapseMeans | src/match.c:123-150 | a collapsed mask stands for exactly the texts the mask stood for |
| MaskMeaning.TravelledMeans | src/channel.c:1162-1290 | a list another server built from the lines it was sent stands for exactly the texts the list here does, stable or not |
| SetMode.EditFaithful | src/channel.c:1502-2455 | every letter, with every outcome of its checks, keeps the echo equal in meaning to the edits made, with no two signs adjacent and the last sign current |
| SetMode.EditAllFaithful | src/channel.c:1502-2455 | the same for every mode string, argument list and privilege level |
| SetMode.RunSetMode | src/channel.c:1502-2455 | the loop's echo, read from the state before, gives the state after, and has no more parameters than the sender may use |
| ModeEffect.MadeExactlyWhen | src/channel.c:1502-2455 | for every sender and letter the change asked for is made and printed if and only if the right to the letter, "not seen yet", the parameter's presence, count and form, and the room all pass; then the channel looks like that, and otherwise as before; and how the loop goes on |
| ModeEffect.SignsTurn | src/channel.c:1594-1618 | a sign turns the reader and tells nothing |
| ModeEffect.LimitRateMeans | src/channel.c:2120-2141 | below operator level a local client's rate stays as it is within the limits and is brought to the nearest otherwise |
| SetMode.EchoLimited | src/channel.c:1502-2455 | the echo never carries more than six parameters for a client |
| SetMode.Powerless | src/channel.c:1502-2455 | a local client without status changes nothing and is not echoed |
| SetMode.HalfopLimits | src/channel.c:1502-2455 | below operator level nobody but a server changes who holds op or halfop |
| SetMode.ServerObeyed | src/channel.c:1502-2455 | a well-formed line from a server that fits the buffer does exactly what its text says |
| ModeRelay.ToldApplies | src/channel.c:1502-2455 | reading a line is making the changes it tells, whatever signs are printed for nothing |
| ModeRelay.EchoMade | src/channel.c:1502-2455 | whoever sends it, the echo tells changes each made where the ones before had led, printed in the form in which they are read back, with room for each |
| ModeRelay.AllHeard | src/channel.c:1502-2455 | letter by letter, the next server tells the same changes in the end if and only if every one passes |
| ModeRelay.EchoTravels | src/channel.c:1433-1466 | a server with the same channel that reads the echo passes on the same changes if and only if every change passes there, and then holds the same channel |
| ModeRelay.EchoTravelsAlike | src/channel.c:1572-1574 | behind a link whose name is no longer, every change passes if and only if its letter is allowed to the sender there, its mask is stable or its key accepted, and the parameters are not too many |
| Burst.WalkListsAll | src/channel.c:1312-1364 | the walk "an operator first, then the rest, skipping it" lists each member exactly once |
| Burst.LeaderFirst | src/channel.c:1304-1330 | the first operator or half-operator goes first and the others follow in list order |
| Burst.HeaderReads | src/channel.c:1302-1303 | read word by word a burst line is the sender, SJOIN, the stamp, the channel, the modes with their parameters and a colon |
| Burst.Advance | src/channel.c:1312-1364 | the next position of the walk, skipping the member already sent |
| Burst.SendMembers | src/channel.c:1293-1374 | the member loop terminates, lists everybody once over all lines, and every line with its header fits the 512 characters of the buffer |
| Lists.MaskLettersObeyed | src/channel.c:1850-2038 | set_mode obeys every letter of a mask line from a server, and adds each mask in canonical form |
| Lists.ListLineObeyed | src/channel.c:1455-1461 | a list line adds exactly its masks, in canonical form, unless its timestamp is newer |
| Lists.ListsArrive | src/channel.c:1162-1290 | all list lines of a burst together add the three lists in canonical form, or nothing when they come too late |
| Lists.LineKeepsStored | src/channel.c:1502-2455 | no MODE line, whoever sends it, brings a mask of another form into the lists |
| Lists.StepKeepsStored | src/channel.c:4544-5153 | nor does an SJOIN |
| Lists.SameWhenStable | src/channel.c:1162-1290 | a list is the same up to case after it has travelled if and only if every mask of it is stable |
| Lists.AddMasksHas | src/channel.c:390-448 | adding masks one by one gives the union up to case of the own masks and the canonical forms of the others |
| Receiving.PrefixReads | src/channel.c:5051-5056 | of a printed nick the first two prefixes are read and all are stripped |
| Receiving.SplitActsAsWhole | src/channel.c:1347-1357 | a line cut in two, the rest with "0" for modes, acts like the whole line if and only if no new channel is lost in between |
| Receiving.LinesActAsOne | src/channel.c:1293-1374 | all SJOIN lines of a burst act like one unsplit SJOIN, for older, equal, newer and zero timestamps |
| Receiving.ListedArrive | src/channel.c:5047-5079 | members that are new and known are all added with the status their prefixes give |
| Exchange.SendChannelModes | src/channel.c:1293-1374 | for a channel whose name starts with '#' the lines are a burst of it, and for others nothing is sent |
| Exchange.BurstHeard | src/channel.c:4544-5153 | a burst, however cut, makes of the receiver's channel the join of the two |
| Exchange.RoundTrip | src/channel.c:1293-1374 | a server lacking the channel rebuilds timestamp, modes and members, the lists if and only if all their masks are stable, and the members' status if and only if nobody holds all three |
| Converge.SameModes | src/channel.c:4733-4811 | both sides end with the same modes and timestamp: 0 if either was 0, else the smaller |
| Converge.SameStatus | src/channel.c:5047-5132 | both sides end with the same status for every member if and only if no status that survives is a triple |
| Converge.SameListsAfter | src/channel.c:1455-1461 | for any stored masks, both sides end with the same lists up to case if and only if: with one timestamp, own masks and the other's in canonical form are the same on both sides; with one zero, that side already had what comes out on the other; else the older side's masks are all stable |
| Converge.SwappedApart | src/channel.c:1162-1290 | with equal timestamps and no changing mask on both sides, the lists agree if and only if no mask changes |
| Converge.RunsAgree | src/channel.c:4544-5153 | along any run what remains to be read leads to the same end |
| Converge.LinkConverges | src/channel.c:1293-1374 | under every interleaving and line split of two bursts each side ends with the join of its channel and the other's |
| Hash.HashNickName | src/hash.c:64-81 | the two accumulators in one loop compute the bucket of the lowered name |
| Hash.HashChannelName | src/hash.c:91-108 | the same over the first 29 characters |
| Hash.LowerMeans | src/hash.c:64-81 | what is added for a character: its code, that of the small letter for a capital, and a negative number for the upper half of the bytes |
| Hash.SameNameSameBucket | src/hash.c:64-108 | names equal under mycmp, which raises case, share a bucket though hashing lowers it |
| Hash.OnlyTwentyNine | src/hash.c:91-108 | channel names that agree in 29 characters share a bucket |
| Links.Unlink | src/channel.c:928-950 | the loop over a pointer to the link takes out the first occurrence and nothing else |
| Membership.Server.Symmetric | src/channel.c:900-950 | a channel lists a user, exactly once, if and only if the user lists the channel; so for invitations; the counters are the list lengths |
| Membership.Server.FindChannel | src/hash.c:325-340 | looking in one bucket finds the channel of that name, in any case, or there is none |
| Membership.Server.GetChannel | src/channel.c:2646-2683 | finds the channel or makes a pristine one, keeping list, table and count in agreement and names unique |
| Membership.Server.AddUser | src/channel.c:900-926 | adds exactly one pair to the membership relation, on both sides |
| Membership.Server.RemoveUser | src/channel.c:928-950 | removes exactly one pair, and the channel when it was the last, leaving no channel empty |
| Membership.Server.Sub1 | src/channel.c:2750-2814 | a channel without users goes from list, table and count, with all its invitations and no others |
| Membership.Server.DelInvite | src/channel.c:2725-2745 | removes exactly that invitation on both sides |
| Membership.Server.AddInvite | src/channel.c:2686-2720 | the newest invitation comes last, the oldest goes when there would be too many, and nobody else's change |
| Membership.Server.ClearInvites | src/channel.c:2363-2364 | -i takes all invitations to the channel, and only those |
| Membership.Server.CanJoin | src/channel.c:2472-2555 | admission if and only if invited, U-lined, or not banned and either unobstructed or on the +I list |
| Membership.Server.CheckJoinrate | src/channel.c:839-894 | a local join is refused exactly when the channel's or the default rate is used up within its time |
| Membership.Server.Join | src/channel.c:2822-3150 | a join adds one pair or changes nothing, and adds it if and only if the user has room, is not in the channel and the channel, if it exists, admits them; a channel made for it always admits its creator, so no channel is left empty; joins that must obey the rate never count beyond it |
| Membership.PristineAdmits | src/channel.c:2472-2555 | a channel just made obstructs nobody, at any time |
| Membership.Server.LeaveAll | src/channel.c:2934-2945 | JOIN 0 ends, and removes exactly the user's pairs |
| Membership.Server.SjoinEnter | src/channel.c:4654-5151 | exactly the listed nicks found behind the link enter, and a channel is left without members if and only if the message's parameters are missing and the channel is new |
| Membership.ListedMeans | src/channel.c:5047-5079 | those who enter are the clients behind the link whose nicks are listed, with operator status exactly if an '@' is among the first two characters and the sender's modes count |
| Match.MatchesItself | src/match.c:350-433 | the matcher, with its budget of 512 calls and its shortcuts, finds that every mask of up to 512 characters matches itself in any case |
| Match.MatchesMeans | src/match.c:350-433 | whatever is matched is what the mask means; and with single separators and calls enough, whatever the mask means is matched |
| Match.OneStarMeans | src/match.c:350-433 | a mask with at most one star behind the shortcuts is matched exactly as it reads |
| Match.FirstSeparatorOnly | src/match.c:358-380 | with two separators the shortcut misses a match |
| Match.MatchIsCaseless | src/match.c:350-433 | whether a mask matches, and how many calls that takes, depends on nobody's case |
| BanLists.Channel.AddBan | src/channel.c:390-448 | a mask is added at most once up to case, because match() finds an equal one, and the serial number moves exactly when it is added |
| BanLists.Channel.AddExempt | src/channel.c:205-260 | the same for exempts |
| BanLists.Channel.DelBan | src/channel.c:454-476 | the mask goes, and the serial number moves exactly when it was there |
| BanLists.Channel.DelExempt | src/channel.c:262-286 | the same for exempts |
| BanLists.Channel.Apply | src/channel.c:383-665 | what the lists are after any edit, and that an edit that changes them moves the serial number |
| BanLists.Channel.Run | src/channel.c:383-665 | after any edits, removal of matching bans and of whole lists included, every member's cached entry still is what the search said at its time |
| BanLists.Channel.TestAfter | src/channel.c:485-539 | a cached test after any edits gives the answer of the lists as they then are, and the entry's old one if and only if the number of edits since is a multiple of 2^32 |
| BanLists.Channel.Search | src/channel.c:485-539 | the full search: banned when a ban matches and no exempt does; told in terms of what the masks mean, exactly so when the matcher decides |
| BanLists.MatchedMeans | src/channel.c:485-539 | a list that matches a person holds a mask that stands for one of the four texts about the person, and the other way round when the matcher decides |
| BanLists.PersonSeparated | src/channel.c:183-200 | the masks of a person have one separator of each kind |
| BanLists.Channel.IsBanned | src/channel.c:485-539 | with the cache: the full search's answer, and the entry's exactly when the edits since it was set are a multiple of 2^32 |
| BanLists.Channel.Stamp | src/channel.c:900-926 | the entry made at a join is right if and only if the full search finds no ban |
| BanLists.Channel.RemoveMatchingBans | src/channel.c:583-665 | exactly the bans that match the client's host or address go while the list is walked, counted if and only if there are any; each is reported once, in order, within the limits |
| BanLists.LinesRemove | src/channel.c:583-665 | whoever had the same bans and obeys the reported lines has the same bans again |
| Watch.Table.BothSides | src/hash.c:386-434 | a header exists if and only if somebody watches the nick; nick side, client side and counter agree |
| Watch.Table.HashGetWatch | src/hash.c:469-482 | lookup finds the header of a nick in any case, or there is none |
| Watch.Table.HashCheckWatch | src/hash.c:437-466 | everybody who watches the name is told exactly once |
| Watch.Table.Add | src/hash.c:386-434 | adds exactly one pair of client and folded nick |
| Watch.Table.Del | src/hash.c:485-562 | removes exactly one pair, and the header with its last client |
| Watch.Table.DelList | src/hash.c:565-634 | removes exactly the client's pairs; the header search always ends |
| Clones.CloneTable.Add | src/clones.c:259-280 | address and site count one more, everybody else the same; limits are kept |
| Clones.CloneTable.Remove | src/clones.c:286-312 | the reverse; entries nobody needs go |
| Clones.CloneTable.Set | src/clones.c:320-356 | sets one limit, returns the old one, drops a soft global limit above a new hard one, leaves the others and all counts, refuses bad arguments |
| Clones.CloneTable.Check | src/clones.c:153-253 | 1, 2 or 0 by the priority of limits of address and site |
| Clones.CloneTable.Register | src/clones.c:153-280 | adding only after a check of 0 never lets a soft local limit be exceeded |
| Clones.CloneTable.Introduce | src/clones.c:259-280 | neither does adding a remote client without a check |
| Clones.CloneTable.Leave | src/clones.c:286-312 | nor a departure |
| Clones.SiteIsSum | src/clones.c:94-107 | the global and the local count of a /24 are the sums over its addresses |
| Clones.SiteMeans | src/clones.c:94-107 | the site is the text up to and with the last dot, and a star |
| Clones.SameSite | src/clones.c:94-107 | two addresses share a site if and only if they agree up to and with the last dot |
| Bits.OneNonZero | src/blalloc.c:202-209 | the shifted mask is non-zero for exactly 64 steps |
| Bits.WordBits | src/blalloc.c:174-180 | a zero word has no bit set, a word equal to ~0 has all |
| BlockHeaps.Block.TakeFree | src/blalloc.c:169-210 | the search loop ends, and takes a slot in range that was free, although the last word has spare bits |
| BlockHeaps.Block.Release | src/blalloc.c:246-270 | frees exactly that slot |
| BlockHeaps.Block.WhollyFree | src/blalloc.c:303-312 | all words zero if and only if no slot is in use |
| BlockHeaps.BlockHeap.NewBlock | src/blalloc.c:35-71 | a fresh block in front of the chain; nothing else changes |
| BlockHeaps.BlockHeap.Alloc | src/blalloc.c:140-215 | returns an address in range not in use and marks exactly it, or nothing when there is neither a free slot nor memory |
| BlockHeaps.BlockHeap.Free | src/blalloc.c:230-275 | gives back exactly the slot the address lies in, and reports addresses outside and slots not in use |
| BlockHeaps.BlockHeap.NoneWhollyFree | src/blalloc.c:295-299 | the early exit is sound: with fewer free elements than a block has, no block is wholly free |
| BlockHeaps.BlockHeap.Collect | src/blalloc.c:289-339 | leaves exactly the blocks with something in use, in order, and every address in use |
| Md5.F | src/md5.c:30 | the optimised F is that of RFC 1321 in the low 32 bits |
| Md5.G | src/md5.c:31 | so is G |
| Md5.LowAdd | src/md5.c:38-41 | sums in a wider word agree with 32-bit sums in their low 32 bits |
| Md5.StepIsOp | src/md5.c:38-41 | so does a whole step with its rotation |
| Md5.Context.Round1 | src/md5.c:90-106 | the sixteen lines of round 1 are steps 0 to 15 of the reference, and store the block's words |
| Md5.Context.Round2 | src/md5.c:108-124 | the lines of round 2 are steps 16 to 31 |
| Md5.Context.Round3 | src/md5.c:126-142 | the lines of round 3 are steps 32 to 47 |
| Md5.Context.Round4 | src/md5.c:144-160 | the lines of round 4 are steps 48 to 63 |
| Md5.Context.Body | src/md5.c:71-176 | the loop compresses its blocks in order |
| Md5.Context.Count | src/md5.c:194-197 | the two counters hold the number of bytes, the carry seen as a sum that got smaller |
| Md5.Context.Update | src/md5.c:189-221 | the state stands for the data so far followed by the new piece: whole blocks digested, the rest in the buffer |
| Md5.PadParts | src/md5.c:227-250 | the padded message is the whole blocks and one more block, or two |
| Md5.LengthCounted | src/md5.c:242-250 | the bytes stored from the counters are the length in bits modulo 2^64 |
| Md5.Context.Final | src/md5.c:223-269 | returns the RFC 1321 digest of everything fed |
| Md5.DigestOfPieces | src/md5.c:178-269 | the digest of the concatenation, however the message was cut |
| LinkBurst.Network.Arrive | src/list.c:404-415 | newest-first insertion keeps every server behind its uplink, and the mark of a newcomer differs from the next one |
| LinkBurst.Network.Depart | src/list.c:340-362 | so does a departure |
| LinkBurst.Network.SendServers | src/m_server.c:220-232 | every server not behind the link is introduced once, after its uplink |
| LinkBurst.Network.Register | src/s_user.c:1020-1030 | a connection that registers keeps the order |
| LinkBurst.Network.Rearrange | src/channel.c:900-950 | joins and parts of persons in the client list keep what a burst relies on |
| LinkBurst.Network.SendChannel | src/m_server.c:267-280 | each member not yet sent is introduced before the channel, which is sent if its name starts with '#' |
| LinkBurst.SharedAre | src/channel.c:1294-1300 | the channels a burst sends are exactly those whose name starts with '#' |
| LinkBurst.Network.Burst | src/m_server.c:220-288 | every person not behind the link is introduced exactly once, after the server they are on and before any SJOIN naming them, in every burst, by the alternation of two marks; exactly the channels whose name starts with '#' are sent |
| Klines.WriteRead | src/klines.c:301-444 | a line that adds restores user, host, reason and exact end, and is skipped when the end has come |
| Klines.WrittenReads | src/klines.c:301-444 | for every ban: a line that adds is read with what is left of the end in 32 bits, as over, permanent or temporary |
| Klines.RestoredWhen | src/klines.c:318-332 | a temporary ban that is alive is restored if and only if it ends before 2^31 seconds |
| Klines.WriteReadRemoval | src/klines.c:301-444 | a line that removes restores the mask |
| Klines.EndsTooLate | src/klines.c:330-332 | a ban that ends at or after 2^31 and before 2^32 seconds is read back as over, and one that ends at 2^32 as permanent |
| Klines.StrtolAutoBack | src/klines.c:365 | decimal numbers never look octal or hexadecimal to strtol with base 0 |
| Klines.StrtolAutoMeans | src/klines.c:365 | strtol with base 0 reads octal behind 0 and hexadecimal behind 0x |
| Klines.LineForms | src/klines.c:344-444 | the forms of a line that is not malformed: a sign, a space, and words set apart by single spaces |
| Klines.MaskMeans | src/userban.c:342-460 | two bans have one mask if and only if user and host are the same but for case |
| Klines.OrdersByPlace | src/klines.c:160-280 | a K-line is added if and only if none is on its user and host, removing takes what is on that user and host, and every other ban stays |
| Klines.RestartByPlace | src/klines.c:537-583 | a restart brings back exactly the bans that were long enough and are alive, whatever is on other users and hosts |
| Klines.Store.Add | src/klines.c:510-517 | afterwards the journal recovers, at any later time, the stored bans and the new one if it is long enough |
| Klines.Store.Remove | src/klines.c:523-530 | afterwards the journal recovers the stored bans without that mask |
| Klines.Store.Compact | src/klines.c:451-504 | the new journal recovers exactly the bans of the table that are long enough, and loses none that is alive when all stored ones are |
| Klines.Store.Expire | src/userban.c:575-604 | bans that are over go from the table without a journal line, and the journal still agrees |
| Klines.Store.Init | src/klines.c:537-583 | replaying into an empty table gives exactly the stored bans still alive, each with its old end; these are the long bans the table had |
| Klines.Store.Obey | src/klines.c:510-583 | one order leaves the table the orders alone say, and journal and table in agreement |
| Klines.Store.Run | src/klines.c:510-583 | after any timed run of adds, removals, expiries, compactions and restarts the table is what the orders alone say: a restart brings back exactly the long bans of the table that are alive |
| Klines.BackExactlyWhen | src/userban.c:1670-1673 | a ban nobody touches is in the table after any run if and only if it was alive at every expiry and restart, long enough at first, and had three hours left at every restart but the last |
| Klines.Store.RestartTwice | src/klines.c:537-583 | after two restarts the table holds exactly the stored bans that are alive and of which the first found three hours left |
| Klines.AfterTwoRestarts | src/userban.c:1670-1673 | a ban is back after a second restart if and only if it is alive and the first restart found three hours of it left |
| Autoconnect.Connects.Scan | src/ircd.c:315-355 | due entries go on hold again, and the first one that is ready is picked |
| Autoconnect.Connects.SomeDue | src/ircd.c:315-355 | an entry is found if and only if some entry has a port and a frequency, is due, and has neither its server linked nor its class full |
| Autoconnect.Connects.TryConnections | src/ircd.c:302-378 | an entry is tried if and only if some usable entry is due with its server not linked and its class not full, and the server is a hub or has no link; returns the least hold time of the usable entries, 0 if there is none, and moves only the chosen entry to the end |
| Autoconnect.RotationHelps | src/ircd.c:359-370 | moving another entry to the end leaves an entry's place, or improves it by one if that entry was ahead |
| Autoconnect.NobodyStarves | src/ircd.c:302-378 | an entry that stays ready and is found due in more passes than there were entries ahead of it is tried in one of them |
| Autoconnect.Connects.Passes | src/ircd.c:302-378 | any number of passes try exactly the entries the rotation gives, so nobody who stays ready starves |

## Left out

- The client form of SJOIN, and the old form with six parameters: only the server form is modelled.
- Nick collisions, nick history and case variants of nicks in SJOIN lists: nicks are found exactly as spelt, in the set of clients behind the link.
- `MODE_LISTED`, and the internal `MODE_LIMIT` bit, which the compared state does not need; `OLD_WEIRD_CHANOP_NEGOTIATION` and `ENABLE_CHANNEL_MODE_D` builds.
- Topics, notices, numerics, logging and delivery: only the lines that carry state are kept.
- Pointers inside lists: `next` and `prev` links are positions in a sequence, so a broken link is not expressible.
- BanLists.Channel.RemoveMatchingBans: the two copies of this loop for exempts and +I masks are not written out, because they differ only in the list and the letter.
- Membership.Server.CanJoin: the ban and +I tests come in as the sets of channels whose lists match, because `BanLists` has them.
- Membership.Server.CheckJoinrate: the default counters, which only serve for warnings, are not kept; nor is the remote case with its 60 seconds of lag, because both callers pass a local client.
- Membership.Server.Join: one channel name of a local client; quarantines, spambot counters, the list syntax and "0" inside a list are not part of it (`LeaveAll` is "JOIN 0").
- Clones.CloneTable.Remove: locality at removal (the uplink is this server) is taken to be locality at the addition.
- Md5.Context.Final: wiping the context afterwards.
- BlockHeaps.BlockHeap.Alloc: what malloc returns is a parameter, assumed apart from the blocks there are; the alignment of elements is not stated.
- LinkBurst.Network.SendServers: servers hidden from a link by a host mask are not skipped.
- LinkBurst.Network.Burst: simbans, fake servers, clone limits, shuns and G-lines, which are sent in between.
- Klines.Store.Add: bans that end at 2^31 seconds or later are not put in the store; what becomes of their line is in `Klines.EndsTooLate`.
- Burst.RelayLength: a line of more than 510 characters is cut by `src/send.c:146-151`; the cut itself is not modelled.
- Klines.Store.Init: failing file operations, a last line without its newline, and masks `make_hostbased_ban` refuses; a mask is its printed user and host.
- Autoconnect.Connects.TryConnections: the connection attempt itself.
- Sockets, `m_nick.c`, `glines.c` (nearly a copy of `klines.c`), `m_rwho.c`, `confparse.c`, `throttle.c`, the compression and encryption of links.
