/** The per-user vote toggle on one idea, over its two id lists. `Upvote` and
    `Downvote` are the list updates the vote handlers perform; `Next` is the
    per-user vote state machine (repeating a vote withdraws it, the opposite
    vote switches it, a vote from neutral records it), and the lemmas connect
    the two. */
module Votes {
  import opened Seqs
  import opened Auth

  /** The two vote lists of an idea. */
  datatype Ballot = Ballot(upvotes: seq<UserId>, downvotes: seq<UserId>)

  /** An upvote by `u`: if `u` is already an upvoter, every copy of `u` leaves
      `upvotes` and `downvotes` is untouched; otherwise `u` is pushed onto
      `upvotes` and every copy of `u` leaves `downvotes`. */
  function Upvote(b: Ballot, u: UserId): (r: Ballot)
    ensures u in r.upvotes <==> u !in b.upvotes
    ensures u in b.upvotes ==> r.downvotes == b.downvotes
    ensures u !in b.upvotes ==> u !in r.downvotes
    ensures forall x :: x != u ==> (x in r.upvotes <==> x in b.upvotes) && (x in r.downvotes <==> x in b.downvotes)
  {
    if u in b.upvotes then Ballot(Without(b.upvotes, u), b.downvotes)
    else Ballot(b.upvotes + [u], Without(b.downvotes, u))
  }

  /** A downvote by `u`: the same toggle with the two lists' roles exchanged. */
  function Downvote(b: Ballot, u: UserId): (r: Ballot)
    ensures u in r.downvotes <==> u !in b.downvotes
    ensures u in b.downvotes ==> r.upvotes == b.upvotes
    ensures u !in b.downvotes ==> u !in r.upvotes
    ensures forall x :: x != u ==> (x in r.upvotes <==> x in b.upvotes) && (x in r.downvotes <==> x in b.downvotes)
  {
    if u in b.downvotes then Ballot(b.upvotes, Without(b.downvotes, u))
    else Ballot(Without(b.upvotes, u), b.downvotes + [u])
  }

  /** The two lists exchanged. */
  function Swap(b: Ballot): Ballot {
    Ballot(b.downvotes, b.upvotes)
  }

  /** No id is in both lists. */
  predicate Exclusive(b: Ballot) {
    forall x :: x in b.upvotes ==> x !in b.downvotes
  }

  datatype VoteState = Neutral | Upvoted | Downvoted
  datatype Direction = Up | Down

  /** Where `u` stands on an idea whose lists are exclusive. */
  function StateOf(b: Ballot, u: UserId): VoteState {
    if u in b.upvotes then Upvoted else if u in b.downvotes then Downvoted else Neutral
  }

  /** The per-user vote state machine: repeating a vote withdraws it, the
      opposite vote switches it, a vote from neutral records it. Every vote
      changes the state. */
  function Next(s: VoteState, d: Direction): (r: VoteState)
    ensures r != s
    ensures r == Neutral <==> (s == Upvoted && d == Up) || (s == Downvoted && d == Down)
    ensures r != Neutral ==> r == if d == Up then Upvoted else Downvoted
  {
    match (s, d)
    case (Neutral, Up) => Upvoted
    case (Neutral, Down) => Downvoted
    case (Upvoted, Up) => Neutral
    case (Upvoted, Down) => Downvoted
    case (Downvoted, Down) => Neutral
    case (Downvoted, Up) => Upvoted
  }

  /** The vote handler for direction `d`. */
  function Cast(b: Ballot, u: UserId, d: Direction): (r: Ballot)
    ensures !(u in r.upvotes && u in r.downvotes)
  {
    match d
    case Up => Upvote(b, u)
    case Down => Downvote(b, u)
  }

  /** Downvoting is upvoting with the lists exchanged. */
  lemma DownvoteMirrorsUpvote(b: Ballot, u: UserId)
    ensures Downvote(b, u) == Swap(Upvote(Swap(b), u))
  {
  }

  /** An upvote by a current upvoter removes every copy of its id from
      `upvotes` and leaves `downvotes` as it was. */
  lemma UpvoteWithdraws(b: Ballot, u: UserId)
    requires u in b.upvotes
    ensures u !in Upvote(b, u).upvotes
    ensures |Upvote(b, u).upvotes| < |b.upvotes|
    ensures Upvote(b, u).downvotes == b.downvotes
  {
  }

  /** An upvote by anyone else appends its id once, at the end of `upvotes`,
      and removes every copy of it from `downvotes`. */
  lemma UpvoteRecords(b: Ballot, u: UserId)
    requires u !in b.upvotes
    ensures var r := Upvote(b, u);
      && |r.upvotes| == |b.upvotes| + 1
      && r.upvotes[..|b.upvotes|] == b.upvotes
      && r.upvotes[|b.upvotes|] == u
      && u !in r.downvotes
  {
  }

  /** Whatever the lists held before, after a vote the voter is in at most one
      of them. */
  lemma VoterInAtMostOne(b: Ballot, u: UserId, d: Direction)
    ensures var r := Cast(b, u, d); !(u in r.upvotes && u in r.downvotes)
  {
  }

  /** A vote touches only the voter's entries: with the voter's id filtered
      out, both lists are exactly what they were, in the same order. */
  lemma VoteKeepsOthers(b: Ballot, u: UserId, d: Direction)
    ensures Without(Cast(b, u, d).upvotes, u) == Without(b.upvotes, u)
    ensures Without(Cast(b, u, d).downvotes, u) == Without(b.downvotes, u)
  {
    WithoutIdempotent(b.upvotes, u);
    WithoutIdempotent(b.downvotes, u);
    WithoutAppended(b.upvotes, u);
    WithoutAppended(b.downvotes, u);
  }

  /** Votes keep the lists mutually exclusive. */
  lemma VotePreservesExclusive(b: Ballot, u: UserId, d: Direction)
    requires Exclusive(b)
    ensures Exclusive(Cast(b, u, d))
  {
  }

  /** On exclusive lists every vote moves the voter exactly as the transition
      table says. */
  lemma VoteFollowsTable(b: Ballot, u: UserId, d: Direction)
    requires Exclusive(b)
    ensures StateOf(Cast(b, u, d), u) == Next(StateOf(b, u), d)
  {
  }

  /** From neutral, voting twice in the same direction gives back both lists
      exactly. */
  lemma {:induction false} VoteTwiceRestores(b: Ballot, u: UserId, d: Direction)
    requires u !in b.upvotes && u !in b.downvotes
    ensures Cast(Cast(b, u, d), u, d) == b
  {
    WithoutAbsent(b.upvotes, u);
    WithoutAbsent(b.downvotes, u);
    WithoutAppended(b.upvotes, u);
    WithoutAppended(b.downvotes, u);
  }

  /** Two users upvote a fresh idea, then the first switches to a downvote:
      one id is left in each list. */
  lemma TwoVotersScenario(u1: UserId, u2: UserId)
    requires u1 != u2
    ensures var b := Upvote(Upvote(Ballot([], []), u1), u2);
      && |b.upvotes| == 2
      && var c := Downvote(b, u1);
      && c.upvotes == [u2] && c.downvotes == [u1]
  {
    var b := Upvote(Upvote(Ballot([], []), u1), u2);
    assert b.upvotes == [u1, u2];
    assert Without([u1, u2], u1) == [u2];
  }
}
