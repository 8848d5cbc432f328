/**
 * One game room of `src/main.rs` (`GameRoom`): its roster, the votes of the
 * current round, its step and its question plan, with the handlers the
 * connection-hosting library calls on it.
 */
module Rooms {
  import opened Wrappers
  import opened Steps
  import opened Protocol

  // ---------------------------------------------------------------------------
  // Rosters and vote lists as values
  // ---------------------------------------------------------------------------

  /** `players.iter().any(|x| x.username == username)`. */
  predicate UsernameTaken(players: seq<Player>, username: Username)
  {
    exists i :: 0 <= i < |players| && players[i].username == username
  }

  /** No two seated players share a username. */
  predicate DistinctUsernames(players: seq<Player>)
  {
    forall i, j :: 0 <= i < j < |players| ==> players[i].username != players[j].username
  }

  /** `votes.iter().any(|x| x.0 == voter)`. */
  predicate HasVoted(votes: seq<Vote>, voter: Username)
  {
    exists i :: 0 <= i < |votes| && votes[i].0 == voter
  }

  /** No voter has two votes. */
  predicate DistinctVoters(votes: seq<Vote>)
  {
    forall i, j :: 0 <= i < j < |votes| ==> votes[i].0 != votes[j].0
  }

  /** `record_vote`: the vote is appended only if its voter has no vote yet. */
  function Recorded(votes: seq<Vote>, vote: Vote): (r: seq<Vote>)
    ensures DistinctVoters(votes) ==> DistinctVoters(r)
    ensures HasVoted(r, vote.0)
    ensures |votes| <= |r| <= |votes| + 1 && r[..|votes|] == votes
  {
    if HasVoted(votes, vote.0) then votes
    else
      assert (votes + [vote])[|votes|] == vote;
      votes + [vote]
  }

  /** The choice of a voter's first vote. */
  function ChoiceOf(votes: seq<Vote>, voter: Username): (c: Option<Username>)
    ensures c.Some? <==> HasVoted(votes, voter)
    decreases |votes|
  {
    if votes == [] then None
    else if votes[0].0 == voter then Some(votes[0].1)
    else
      var rest := ChoiceOf(votes[1..], voter);
      assert HasVoted(votes[1..], voter) ==> HasVoted(votes, voter) by {
        if HasVoted(votes[1..], voter) {
          var i :| 0 <= i < |votes| - 1 && votes[1..][i].0 == voter;
          assert votes[i + 1].0 == voter;
        }
      }
      assert HasVoted(votes, voter) ==> HasVoted(votes[1..], voter) by {
        if HasVoted(votes, voter) {
          var i :| 0 <= i < |votes| && votes[i].0 == voter;
          assert votes[1..][i - 1].0 == voter;
        }
      }
      rest
  }

  lemma {:induction false} ChoiceOfAppend(votes: seq<Vote>, vote: Vote, voter: Username)
    ensures ChoiceOf(votes + [vote], voter)
      == if HasVoted(votes, voter) then ChoiceOf(votes, voter)
         else if vote.0 == voter then Some(vote.1) else None
    decreases |votes|
  {
    if votes != [] {
      assert (votes + [vote])[1..] == votes[1..] + [vote];
      ChoiceOfAppend(votes[1..], vote, voter);
    }
  }

  /**
   * First vote wins: after `record_vote` the voter's choice is their earlier
   * one if they had voted, the new one otherwise; every other voter's choice
   * is untouched.
   */
  lemma FirstVoteWins(votes: seq<Vote>, vote: Vote, voter: Username)
    ensures ChoiceOf(Recorded(votes, vote), vote.0)
      == if HasVoted(votes, vote.0) then ChoiceOf(votes, vote.0) else Some(vote.1)
    ensures voter != vote.0 ==> ChoiceOf(Recorded(votes, vote), voter) == ChoiceOf(votes, voter)
  {
    if !HasVoted(votes, vote.0) {
      ChoiceOfAppend(votes, vote, vote.0);
      ChoiceOfAppend(votes, vote, voter);
    }
  }

  /** A second vote by the same voter changes nothing. */
  lemma RecordedIdempotent(votes: seq<Vote>, first: Vote, second: Vote)
    requires second.0 == first.0
    ensures Recorded(Recorded(votes, first), second) == Recorded(votes, first)
  {
  }

  /** `votes.retain(|(voter, _)| voter != me)`. */
  function WithoutVoter(votes: seq<Vote>, me: Username): (r: seq<Vote>)
    ensures forall v :: v in r <==> v in votes && v.0 != me
    ensures !HasVoted(r, me)
    ensures DistinctVoters(votes) ==> DistinctVoters(r)
    decreases |votes|
  {
    if votes == [] then []
    else
      var last := votes[|votes| - 1];
      WithoutVoter(votes[..|votes| - 1], me) + (if last.0 != me then [last] else [])
  }

  /** `players.retain(|p| p.username != me)`. */
  function WithoutPlayer(players: seq<Player>, me: Username): (r: seq<Player>)
    ensures |r| <= |players|
    decreases |players|
  {
    if players == [] then []
    else
      var last := players[|players| - 1];
      WithoutPlayer(players[..|players| - 1], me) + (if last.username != me then [last] else [])
  }

  /** Retaining keeps exactly the players with another username. */
  lemma {:induction false} WithoutPlayerMembers(players: seq<Player>, me: Username)
    ensures forall p :: p in WithoutPlayer(players, me) <==> p in players && p.username != me
    decreases |players|
  {
    if players != [] {
      var init, last := players[..|players| - 1], players[|players| - 1];
      WithoutPlayerMembers(init, me);
      assert players == init + [last];
    }
  }

  /** Retaining keeps distinct usernames distinct. */
  lemma {:induction false} WithoutPlayerDistinct(players: seq<Player>, me: Username)
    requires DistinctUsernames(players)
    ensures DistinctUsernames(WithoutPlayer(players, me))
    decreases |players|
  {
    if players != [] {
      var init, last := players[..|players| - 1], players[|players| - 1];
      assert DistinctUsernames(init) by {
        forall i, j | 0 <= i < j < |init| ensures init[i].username != init[j].username {
          assert init[i] == players[i] && init[j] == players[j];
        }
      }
      WithoutPlayerDistinct(init, me);
      var kept := WithoutPlayer(init, me);
      var r := kept + (if last.username != me then [last] else []);
      assert WithoutPlayer(players, me) == r;
      if last.username != me {
        WithoutPlayerMembers(init, me);
        forall i | 0 <= i < |kept| ensures kept[i].username != last.username {
          assert kept[i] in kept;
          var k :| 0 <= k < |init| && init[k] == kept[i];
          assert players[k] == kept[i];
        }
      }
    }
  }

  /**
   * Retaining keeps exactly the players with another username, so the
   * username is no longer seated and distinct usernames stay distinct.
   */
  lemma WithoutPlayerKeeps(players: seq<Player>, me: Username)
    ensures forall p :: p in WithoutPlayer(players, me) <==> p in players && p.username != me
    ensures !UsernameTaken(WithoutPlayer(players, me), me)
    ensures DistinctUsernames(players) ==> DistinctUsernames(WithoutPlayer(players, me))
  {
    WithoutPlayerMembers(players, me);
    var r := WithoutPlayer(players, me);
    forall i | 0 <= i < |r| ensures r[i].username != me {
      assert r[i] in r;
    }
    if DistinctUsernames(players) {
      WithoutPlayerDistinct(players, me);
    }
  }

  /** Retaining distributes over concatenation, so the kept votes stay in their order. */
  lemma {:induction false} WithoutVoterConcat(a: seq<Vote>, b: seq<Vote>, me: Username)
    ensures WithoutVoter(a + b, me) == WithoutVoter(a, me) + WithoutVoter(b, me)
    decreases |b|
  {
    if b != [] {
      assert (a + b)[..|a + b| - 1] == a + b[..|b| - 1];
      WithoutVoterConcat(a, b[..|b| - 1], me);
    } else {
      assert a + b == a;
    }
  }

  /** Retaining distributes over concatenation, so the kept players stay in their order. */
  lemma {:induction false} WithoutPlayerConcat(a: seq<Player>, b: seq<Player>, me: Username)
    ensures WithoutPlayer(a + b, me) == WithoutPlayer(a, me) + WithoutPlayer(b, me)
    decreases |b|
  {
    if b != [] {
      assert (a + b)[..|a + b| - 1] == a + b[..|b| - 1];
      WithoutPlayerConcat(a, b[..|b| - 1], me);
    } else {
      assert a + b == a;
    }
  }

  lemma {:induction false} WithoutAbsentPlayer(players: seq<Player>, me: Username)
    requires !UsernameTaken(players, me)
    ensures WithoutPlayer(players, me) == players
    decreases |players|
  {
    if players != [] {
      var init := players[..|players| - 1];
      WithoutAbsentPlayer(init, me);
      assert players == init + [players[|players| - 1]];
    }
  }

  /**
   * In a roster with distinct usernames, the leave of player j removes
   * exactly entry j and keeps the others in order.
   */
  lemma UniqueAt(players: seq<Player>, j: nat)
    requires DistinctUsernames(players) && j < |players|
    ensures !UsernameTaken(players[..j], players[j].username)
    ensures !UsernameTaken(players[j + 1..], players[j].username)
  {
  }

  /** Retaining removes a single entry with the username when no other entry has it. */
  lemma RemoveMiddle(before: seq<Player>, x: Player, after: seq<Player>)
    requires !UsernameTaken(before, x.username) && !UsernameTaken(after, x.username)
    ensures WithoutPlayer(before + [x] + after, x.username) == before + after
  {
    var me := x.username;
    WithoutAbsentPlayer(before, me);
    WithoutAbsentPlayer(after, me);
    assert WithoutPlayer([x], me) == [] by {
      assert [x][..0] == [];
    }
    WithoutPlayerConcat(before, [x], me);
    WithoutPlayerConcat(before + [x], after, me);
  }

  lemma LeaveRemovesOne(players: seq<Player>, j: nat)
    requires DistinctUsernames(players) && j < |players|
    ensures WithoutPlayer(players, players[j].username) == players[..j] + players[j + 1..]
  {
    var before, after := players[..j], players[j + 1..];
    assert players == before + [players[j]] + after;
    UniqueAt(players, j);
    RemoveMiddle(before, players[j], after);
  }

  /** Join followed by leave of the same username restores the roster. */
  lemma JoinThenLeave(players: seq<Player>, p: Player)
    requires !UsernameTaken(players, p.username)
    ensures WithoutPlayer(players + [p], p.username) == players
  {
    assert (players + [p])[..|players|] == players;
    WithoutAbsentPlayer(players, p.username);
  }

  /** The usernames of the roster, as a set. */
  function UsernameSet(players: seq<Player>): (s: set<Username>)
    ensures forall u :: u in s <==> UsernameTaken(players, u)
    ensures DistinctUsernames(players) ==> |s| == |players|
    decreases |players|
  {
    if players == [] then {}
    else
      var init := players[..|players| - 1];
      var last := players[|players| - 1];
      assert forall u :: UsernameTaken(players, u) <==> UsernameTaken(init, u) || u == last.username by {
        forall u ensures UsernameTaken(players, u) ==> UsernameTaken(init, u) || u == last.username {
          if UsernameTaken(players, u) {
            var i :| 0 <= i < |players| && players[i].username == u;
            if i < |init| { assert init[i].username == u; }
          }
        }
        forall u | UsernameTaken(init, u) ensures UsernameTaken(players, u) {
          var i :| 0 <= i < |init| && init[i].username == u;
          assert players[i].username == u;
        }
      }
      UsernameSet(init) + {last.username}
  }

  /** The voters, as a set. */
  function VoterSet(votes: seq<Vote>): (s: set<Username>)
    ensures forall u :: u in s <==> HasVoted(votes, u)
    ensures DistinctVoters(votes) ==> |s| == |votes|
    decreases |votes|
  {
    if votes == [] then {}
    else
      var init := votes[..|votes| - 1];
      var last := votes[|votes| - 1];
      assert forall u :: HasVoted(votes, u) <==> HasVoted(init, u) || u == last.0 by {
        forall u ensures HasVoted(votes, u) ==> HasVoted(init, u) || u == last.0 {
          if HasVoted(votes, u) {
            var i :| 0 <= i < |votes| && votes[i].0 == u;
            if i < |init| { assert init[i].0 == u; }
          }
        }
        forall u | HasVoted(init, u) ensures HasVoted(votes, u) {
          var i :| 0 <= i < |init| && init[i].0 == u;
          assert votes[i].0 == u;
        }
      }
      VoterSet(init) + {last.0}
  }

  lemma SubsetCardinality<T>(a: set<T>, b: set<T>)
    requires a <= b
    ensures |a| <= |b|
    ensures |a| == |b| ==> a == b
  {
    assert b == a + (b - a);
  }

  /** The broadcast after an answer: the running count until there are as many votes as players. */
  function RoundReply(votes: seq<Vote>, players: seq<Player>): (e: ServerEvent)
    ensures e.RoundUpdate? <==> |votes| < |players|
    ensures e.RoundUpdate? ==> e.readyPlayerCount == |votes|
    ensures e.RoundOver? <==> |votes| >= |players|
    ensures e.RoundOver? ==> e.votes == votes
  {
    if |votes| < |players| then RoundUpdate(|votes|) else RoundOver(votes)
  }

  /**
   * When every voter is a seated player (the source does not check this), the
   * round is reported over exactly when every seated player has voted.
   */
  lemma RoundOverIffAllVoted(votes: seq<Vote>, players: seq<Player>)
    requires DistinctVoters(votes) && DistinctUsernames(players)
    requires forall i :: 0 <= i < |votes| ==> UsernameTaken(players, votes[i].0)
    ensures RoundReply(votes, players).RoundOver?
      <==> forall i :: 0 <= i < |players| ==> HasVoted(votes, players[i].username)
  {
    var voters, names := VoterSet(votes), UsernameSet(players);
    assert voters <= names by {
      forall u | u in voters ensures u in names {
        var i :| 0 <= i < |votes| && votes[i].0 == u;
      }
    }
    SubsetCardinality(voters, names);
    if forall i :: 0 <= i < |players| ==> HasVoted(votes, players[i].username) {
      assert names <= voters by {
        forall u | u in names ensures u in voters {
          var i :| 0 <= i < |players| && players[i].username == u;
        }
      }
      assert voters == names;
    }
    if RoundReply(votes, players).RoundOver? {
      assert voters == names;
      forall i | 0 <= i < |players| ensures HasVoted(votes, players[i].username) {
        assert players[i].username in names;
      }
    }
  }

  /** One `NewRound` per subject, the prompt personalised with that subject's username. */
  function NewRoundEvents(prompt: Prompt, subjects: seq<Player>): (es: seq<ServerEvent>)
    ensures |es| == |subjects|
    ensures forall j :: 0 <= j < |es| ==> es[j] == NewRound(IntoClient(prompt, subjects[j].username))
  {
    seq(|subjects|, j requires 0 <= j < |subjects| => NewRound(IntoClient(prompt, subjects[j].username)))
  }

  /** The plan of a room: `choose_multiple` of 10 distinct indices of the question list. */
  predicate IsQuestionPlan(plan: seq<nat>, count: nat)
  {
    |plan| == (if count < QuestionCount then count else QuestionCount) &&
    (forall i :: 0 <= i < |plan| ==> plan[i] < count) &&
    (forall i, j :: 0 <= i < j < |plan| ==> plan[i] != plan[j])
  }

  /** Some plan exists for every question list, so a room can always be created. */
  lemma QuestionPlanExists(count: nat)
    ensures exists plan :: IsQuestionPlan(plan, count)
  {
    var n := if count < QuestionCount then count else QuestionCount;
    var plan: seq<nat> := seq(n, i requires 0 <= i < n => i);
    assert IsQuestionPlan(plan, count);
  }

  /** Where a connection goes next: back to the lobby, or into a room under a username. */
  datatype Relocation = ToLobby | ToRoom(room: GameRoom, identity: Username)

  // ---------------------------------------------------------------------------
  // The room
  // ---------------------------------------------------------------------------

  class GameRoom {
    const code: string
    /** The whole question list, shared with the lobby. */
    const allQuestions: seq<Prompt>
    /** The question plan: indices into `allQuestions`, one per round. */
    const questions: seq<nat>
    var players: seq<Player>
    var votes: seq<Vote>
    var step: Step

    ghost predicate Valid()
      reads this
    {
      DistinctUsernames(players) &&
      DistinctVoters(votes) &&
      ValidStep(step) &&
      |questions| == QuestionCount &&
      IsQuestionPlan(questions, |allQuestions|)
    }

    /** `GameRoom::create`, with the sampled plan as a parameter. */
    constructor Create(code: string, allQuestions: seq<Prompt>, plan: seq<nat>)
      requires |allQuestions| >= QuestionCount && IsQuestionPlan(plan, |allQuestions|)
      ensures Valid()
      ensures this.code == code && this.allQuestions == allQuestions && questions == plan
      ensures players == [] && votes == [] && step == Lobby
    {
      this.code := code;
      this.allQuestions := allQuestions;
      questions := plan;
      players := [];
      votes := [];
      step := Lobby;
    }

    /** `GameRoom::join`; the lobby only calls it for a username not yet seated. */
    method Join(player: Player)
      requires Valid() && !UsernameTaken(players, player.username)
      modifies this
      ensures Valid()
      ensures players == old(players) + [player]
      ensures votes == old(votes) && step == old(step)
    {
      players := players + [player];
    }

    /** `GameRoom::record_vote`. */
    method RecordVote(vote: Vote)
      requires Valid()
      modifies this
      ensures Valid()
      ensures votes == Recorded(old(votes), vote)
      ensures players == old(players) && step == old(step)
    {
      if !HasVoted(votes, vote.0) {
        votes := votes + [vote];
      }
    }

    /** `on_join`: the new roster to everyone, then a snapshot of the room to the newcomer. */
    method OnJoin() returns (out: seq<Outgoing>)
      ensures out == [Broadcast(RoomUpdate(players)), Send(OnRoomJoin(code, players, step))]
    {
      out := [Broadcast(RoomUpdate(players)), Send(OnRoomJoin(code, players, step))];
    }

    /** `Step::advance` on the room's step: store the next step and return it. */
    method AdvanceStep() returns (next: Step)
      requires Valid()
      modifies this
      ensures Valid()
      ensures next == step == Advance(old(step))
      ensures players == old(players) && votes == old(votes)
    {
      next := Advance(step);
      step := next;
    }

    /**
     * `StartRound`: clear the votes, advance the step, and announce the new
     * step. `shuffled` is the roster in the order the shuffle produced; each
     * recipient's tag prompt names one of them.
     */
    method OnStartRound(shuffled: seq<Player>) returns (out: seq<Outgoing>)
      requires Valid() && multiset(shuffled) == multiset(players)
      modifies this
      ensures Valid()
      ensures votes == [] && step == Advance(old(step)) && players == old(players)
      ensures step.Question? ==>
        out == [BroadcastEach(NewRoundEvents(allQuestions[questions[step.idx]], shuffled))]
      ensures step.Finished? ==> out == [Broadcast(GameOver)]
      ensures step.Lobby? ==> out == [Broadcast(OnRoomJoin(code, players, step))]
    {
      votes := [];
      var next := AdvanceStep();
      match next {
        case Question(idx) =>
          var question := allQuestions[questions[idx]];
          out := [BroadcastEach(NewRoundEvents(question, shuffled))];
        case Finished =>
          out := [Broadcast(GameOver)];
        case Lobby =>
          out := [Broadcast(OnRoomJoin(code, players, step))];
      }
    }

    /** `Answer`: record the vote, then report progress or the full tally. */
    method OnAnswer(vote: Vote) returns (out: seq<Outgoing>)
      requires Valid()
      modifies this
      ensures Valid()
      ensures votes == Recorded(old(votes), vote)
      ensures players == old(players) && step == old(step)
      ensures out == [Broadcast(RoundReply(votes, players))]
    {
      RecordVote(vote);
      var res := if |votes| < |players| then RoundUpdate(|votes|) else RoundOver(votes);
      out := [Broadcast(res)];
    }

    /** `LeaveRoom`: the connection goes back to the lobby; the room changes in `OnLeave`. */
    method OnLeaveRoom() returns (reloc: Relocation)
      ensures reloc == ToLobby
    {
      reloc := ToLobby;
    }

    /** `on_leave`: drop the leaver's votes and seat, and send the new roster to the rest. */
    method OnLeave(me: Username) returns (out: seq<Outgoing>)
      requires Valid()
      modifies this
      ensures Valid()
      ensures votes == WithoutVoter(old(votes), me)
      ensures players == WithoutPlayer(old(players), me)
      ensures step == old(step)
      ensures out == [Broadcast(RoomUpdate(players))]
    {
      WithoutPlayerKeeps(players, me);
      votes := WithoutVoter(votes, me);
      players := WithoutPlayer(players, me);
      out := [Broadcast(RoomUpdate(players))];
    }
  }

  /** There is one prompt per seated player, and every seated player is the subject of a tag prompt. */
  lemma NewRoundSubjectsAreRoster(prompt: Prompt, shuffled: seq<Player>, players: seq<Player>)
    requires multiset(shuffled) == multiset(players)
    ensures |NewRoundEvents(prompt, shuffled)| == |players|
    ensures prompt.Tag? ==> forall p :: p in players ==>
      exists j :: 0 <= j < |players| && NewRoundEvents(prompt, shuffled)[j].question.subject == p.username
  {
    assert |shuffled| == |multiset(shuffled)| == |multiset(players)| == |players|;
    if prompt.Tag? {
      forall p | p in players
        ensures exists j :: 0 <= j < |players| && NewRoundEvents(prompt, shuffled)[j].question.subject == p.username
      {
        assert p in multiset(shuffled);
        var j :| 0 <= j < |shuffled| && shuffled[j] == p;
        assert NewRoundEvents(prompt, shuffled)[j].question.subject == p.username;
      }
    }
  }
}
