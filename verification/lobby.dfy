/**
 * The lobby of `src/main.rs` (`Lobby`): the registry of rooms by code, the
 * room probe, and the JoinRoom request that either joins an existing room or
 * creates one under a freshly generated code.
 */
module Lobbies {
  import opened Wrappers
  import opened Steps
  import opened Protocol
  import opened IdGen
  import opened Rooms

  /** The entropy the lobby gives every code-generating chain. */
  const CreationEntropy: real := 0.1

  /**
   * A registry entry (`RoomRefWeak<GameRoom>`): upgrading it either yields the
   * room or reports that the room no longer exists.
   */
  datatype RoomRefWeak = Alive(room: GameRoom) | Dead

  type Registry = map<string, RoomRefWeak>

  /** The rooms a registry's entries still upgrade to. */
  ghost function Live(rooms: Registry): set<GameRoom>
  {
    set c | c in rooms && rooms[c].Alive? :: rooms[c].room
  }

  /** Registering a room under a new code adds exactly that room to the live ones. */
  lemma LiveInsert(rooms: Registry, code: string, room: GameRoom)
    requires code !in rooms
    ensures Live(rooms[code := Alive(room)]) == Live(rooms) + {room}
  {
    var after := rooms[code := Alive(room)];
    forall r | r in Live(after) ensures r in Live(rooms) + {room} {
      var c :| c in after && after[c].Alive? && after[c].room == r;
      if c != code {
        assert c in rooms && rooms[c].Alive? && rooms[c].room == r;
      }
    }
    forall r | r in Live(rooms) ensures r in Live(after) {
      var c :| c in rooms && rooms[c].Alive? && rooms[c].room == r;
      assert c in after && after[c] == rooms[c];
    }
    assert after[code] == Alive(room);
  }

  /** `rooms.get(code).and_then(|weak| weak.upgrade())` succeeds. */
  predicate IsLive(rooms: Registry, code: string)
  {
    code in rooms && rooms[code].Alive?
  }

  /** The `RoomProbeResult` payload: the code itself when a live room has it. */
  function Probe(rooms: Registry, code: string): (r: Option<string>)
    ensures r.Some? <==> IsLive(rooms, code)
    ensures r.Some? ==> r.value == code
  {
    if IsLive(rooms, code) then Some(code) else None
  }

  /** What a JoinRoom request leads to before the username is checked against a roster. */
  datatype JoinPath = Reject(error: ErrorMsg) | JoinExisting(room: GameRoom) | CreateRoom

  /**
   * The checks of JoinRoom, in the order the handler makes them: the empty
   * username first, then the length of a given code, then its lookup; no
   * code means a new room.
   */
  function JoinCheck(username: Username, code: Option<string>, rooms: Registry): (p: JoinPath)
    ensures p == Reject(EmptyUsername) <==> username == []
    ensures p == Reject(RoomNotFound) <==>
      username != [] && code.Some? && (Utf8Len(code.value) != CodeLength || !IsLive(rooms, code.value))
    ensures p.JoinExisting? <==>
      username != [] && code.Some? && Utf8Len(code.value) == CodeLength && IsLive(rooms, code.value)
    ensures p.JoinExisting? ==> p.room == rooms[code.value].room
    ensures p == CreateRoom <==> username != [] && code.None?
  {
    if username == [] then Reject(EmptyUsername)
    else if code.None? then CreateRoom
    else if Utf8Len(code.value) != CodeLength then Reject(RoomNotFound)
    else if !IsLive(rooms, code.value) then Reject(RoomNotFound)
    else JoinExisting(rooms[code.value].room)
  }

  /** The same request decided by the lookup alone, without the length check. */
  function JoinByLookup(username: Username, code: Option<string>, rooms: Registry): JoinPath
  {
    if username == [] then Reject(EmptyUsername)
    else if code.None? then CreateRoom
    else if IsLive(rooms, code.value) then JoinExisting(rooms[code.value].room)
    else Reject(RoomNotFound)
  }

  /**
   * The length check is only a shortcut: when every registered code has the
   * code length, it rejects nothing that the lookup would accept.
   */
  lemma ShortcutIsSound(username: Username, code: Option<string>, rooms: Registry)
    requires forall c :: c in rooms ==> Utf8Len(c) == CodeLength
    ensures JoinCheck(username, code, rooms) == JoinByLookup(username, code, rooms)
  {
    if username != [] && code.Some? && Utf8Len(code.value) != CodeLength {
      assert code.value !in rooms;
    }
  }

  /** A probe answers with the code exactly when a join with that code reaches the room. */
  lemma ProbeAgreesWithJoin(username: Username, code: string, rooms: Registry)
    requires username != [] && Utf8Len(code) == CodeLength
    ensures Probe(rooms, code).Some? <==> JoinCheck(username, Some(code), rooms).JoinExisting?
  {
  }

  /**
   * The attempt at which the creation loop stops: the first one whose code
   * is not yet a key of the registry, live or dead.
   */
  function FirstFresh(t: Table, attempts: seq<seq<Draw>>, rooms: Registry): (j: nat)
    requires WellFormed(t)
    requires exists j :: 0 <= j < |attempts| && Generate(t, None, attempts[j]) !in rooms
    ensures j < |attempts| && Generate(t, None, attempts[j]) !in rooms
    ensures forall i :: 0 <= i < j ==> Generate(t, None, attempts[i]) in rooms
    decreases |attempts|
  {
    if Generate(t, None, attempts[0]) !in rooms then 0
    else
      assert exists j :: 0 <= j < |attempts[1..]| && Generate(t, None, attempts[1..][j]) !in rooms by {
        var j :| 0 <= j < |attempts| && Generate(t, None, attempts[j]) !in rooms;
        assert attempts[1..][j - 1] == attempts[j];
      }
      var rest := FirstFresh(t, attempts[1..], rooms);
      assert attempts[rest + 1] == attempts[1..][rest];
      assert forall i :: 1 <= i < rest + 1 ==> attempts[i] == attempts[1..][i - 1];
      rest + 1
  }

  /** Over an ASCII corpus a generated code is ASCII, so its `len` is the character count. */
  lemma GeneratedCodeLength(t: Table, draws: seq<Draw>)
    requires WellFormed(t) && AsciiTable(t) && |draws| == CodeLength
    ensures Utf8Len(Generate(t, None, draws)) == CodeLength
  {
    GenerateAscii(t, None, draws);
  }

  /** Codes made of characters of the table or of the fallback alphabet. */
  ghost predicate CodeChars(t: Table, code: string)
  {
    forall i :: 0 <= i < |code| ==> IsUpperAlphanumeric(code[i]) || InTable(t, code[i])
  }

  /** Over an ASCII corpus, such a code of eight characters passes the length check. */
  lemma CodeCharsLength(t: Table, code: string)
    requires AsciiTable(t) && |code| == CodeLength && CodeChars(t, code)
    ensures Utf8Len(code) == CodeLength
  {
    forall i | 0 <= i < |code| ensures (code[i] as int) < 0x80 {
      if !IsUpperAlphanumeric(code[i]) {
        var k, j :| 0 <= k < |t| && 0 <= j < |t[k]| && t[k][j] == Some(code[i]);
      }
    }
  }

  // ---------------------------------------------------------------------------
  // The lobby
  // ---------------------------------------------------------------------------

  class Lobby {
    const funnyWords: FunnyWords
    /** The question list every room draws its plan from. */
    const questions: seq<Prompt>
    var rooms: Registry

    /** The rooms the registry can still reach. */
    ghost function LiveRooms(): set<GameRoom>
      reads this
    {
      Live(rooms)
    }

    ghost predicate Valid()
      reads this, funnyWords, funnyWords.nextLetter, LiveRooms()
    {
      funnyWords.Valid() &&
      |questions| >= QuestionCount &&
      (forall c :: c in rooms ==> |c| == CodeLength && CodeChars(funnyWords.Table(), c)) &&
      (forall c :: c in rooms && rooms[c].Alive? ==>
        rooms[c].room.code == c &&
        rooms[c].room.allQuestions == questions &&
        rooms[c].room.Valid())
    }

    /** The lobby the server starts with: no rooms. */
    constructor (funnyWords: FunnyWords, questions: seq<Prompt>)
      requires funnyWords.Valid() && |questions| >= QuestionCount
      ensures Valid()
      ensures this.funnyWords == funnyWords && this.questions == questions && rooms == map[]
    {
      this.funnyWords := funnyWords;
      this.questions := questions;
      rooms := map[];
    }

    /** Over an ASCII corpus every registered code passes the length check. */
    lemma RegisteredCodesHaveCodeLength()
      requires Valid() && AsciiTable(funnyWords.Table())
      ensures forall c :: c in rooms ==> Utf8Len(c) == CodeLength
    {
      forall c | c in rooms ensures Utf8Len(c) == CodeLength {
        CodeCharsLength(funnyWords.Table(), c);
      }
    }

    /** `RoomProbe`: answer with the code if a live room has it. */
    method OnRoomProbe(code: string) returns (out: Outgoing)
      ensures out == Send(RoomProbeResult(Probe(rooms, code)))
      ensures out.event.probed.Some? <==> IsLive(rooms, code)
    {
      var probed := if code in rooms && rooms[code].Alive? then Some(code) else None;
      out := Send(RoomProbeResult(probed));
    }

    /**
     * The creation loop: a new chain per attempt, eight characters from each,
     * until a code is not a key of the registry. `attempts` holds the random
     * draws of the successive attempts.
     */
    method FreshCode(attempts: seq<seq<Draw>>) returns (code: string)
      requires Valid()
      requires forall j :: 0 <= j < |attempts| ==> |attempts[j]| == CodeLength
      requires exists j :: 0 <= j < |attempts| && Generate(funnyWords.Table(), None, attempts[j]) !in rooms
      ensures code == Generate(funnyWords.Table(), None, attempts[FirstFresh(funnyWords.Table(), attempts, rooms)])
      ensures code !in rooms && |code| == CodeLength && CodeChars(funnyWords.Table(), code)
    {
      ghost var t := funnyWords.Table();
      ghost var stop := FirstFresh(t, attempts, rooms);
      var i := 0;
      while true
        invariant 0 <= i <= stop
        invariant t == funnyWords.Table() && funnyWords.Valid()
        decreases |attempts| - i
      {
        var chain := new Chain(funnyWords, CreationEntropy);
        code := chain.Take(attempts[i]);
        if code !in rooms {
          assert i == stop;
          GenerateChars(t, None, attempts[i]);
          return;
        }
        i := i + 1;
      }
    }

    /**
     * `JoinRoom`: reject an empty username, a code of the wrong length or an
     * unknown or dead code; otherwise take the room of the code, or create a
     * room under a fresh code with the question plan `plan`; then seat the
     * player unless the username is taken in that room.
     */
    method OnJoinRoom(username: Username, avatar: string, code: Option<string>,
                      attempts: seq<seq<Draw>>, plan: seq<nat>)
      returns (out: seq<Outgoing>, reloc: Option<Relocation>)
      requires Valid()
      requires forall j :: 0 <= j < |attempts| ==> |attempts[j]| == CodeLength
      requires username != [] && code.None? ==>
        IsQuestionPlan(plan, |questions|) &&
        exists j :: 0 <= j < |attempts| && Generate(funnyWords.Table(), None, attempts[j]) !in rooms
      modifies this, LiveRooms()
      ensures Valid()
      ensures JoinCheck(username, code, old(rooms)).Reject? ==>
        out == [Send(Error(JoinCheck(username, code, old(rooms)).error))] && reloc == None &&
        rooms == old(rooms) && unchanged(old(LiveRooms()))
      ensures JoinCheck(username, code, old(rooms)).JoinExisting? ==>
        var room := JoinCheck(username, code, old(rooms)).room;
        rooms == old(rooms) &&
        (forall r :: r in old(LiveRooms()) && r != room ==> unchanged(r)) &&
        room.votes == old(room.votes) && room.step == old(room.step) &&
        if UsernameTaken(old(room.players), username) then
          out == [Send(Error(UsedUsername))] && reloc == None && room.players == old(room.players)
        else
          out == [] && reloc == Some(ToRoom(room, username)) &&
          room.players == old(room.players) + [Player(username, avatar)]
      ensures JoinCheck(username, code, old(rooms)) == CreateRoom ==>
        var newCode := Generate(funnyWords.Table(), None, attempts[FirstFresh(funnyWords.Table(), attempts, old(rooms))]);
        newCode !in old(rooms) && newCode in rooms && rooms[newCode].Alive? &&
        rooms == old(rooms)[newCode := rooms[newCode]] &&
        unchanged(old(LiveRooms())) &&
        var room := rooms[newCode].room;
        fresh(room) && room.code == newCode && room.questions == plan &&
        room.players == [Player(username, avatar)] && room.votes == [] && room.step == Lobby &&
        out == [] && reloc == Some(ToRoom(room, username))
    {
      if username == [] {
        out, reloc := [Send(Error(EmptyUsername))], None;
        return;
      }
      var room: GameRoom;
      if code.Some? {
        if Utf8Len(code.value) != CodeLength {
          out, reloc := [Send(Error(RoomNotFound))], None;
          return;
        }
        if !(code.value in rooms && rooms[code.value].Alive?) {
          out, reloc := [Send(Error(RoomNotFound))], None;
          return;
        }
        room := rooms[code.value].room;
      } else {
        room := OpenRoom(attempts, plan);
      }
      if UsernameTaken(room.players, username) {
        out, reloc := [Send(Error(UsedUsername))], None;
        return;
      }
      room.Join(Player(username, avatar));
      out, reloc := [], Some(ToRoom(room, username));
    }

    /**
     * The creation branch of a join without a code: a fresh code, a new room
     * in the lobby state, and the registry entry pointing at it.
     */
    method OpenRoom(attempts: seq<seq<Draw>>, plan: seq<nat>) returns (room: GameRoom)
      requires Valid()
      requires forall j :: 0 <= j < |attempts| ==> |attempts[j]| == CodeLength
      requires IsQuestionPlan(plan, |questions|)
      requires exists j :: 0 <= j < |attempts| && Generate(funnyWords.Table(), None, attempts[j]) !in rooms
      modifies this
      ensures Valid()
      ensures var newCode := Generate(funnyWords.Table(), None, attempts[FirstFresh(funnyWords.Table(), attempts, old(rooms))]);
        newCode !in old(rooms) && rooms == old(rooms)[newCode := Alive(room)] &&
        fresh(room) && room.code == newCode && room.questions == plan &&
        room.players == [] && room.votes == [] && room.step == Lobby
      ensures room.Valid() && LiveRooms() == old(LiveRooms()) + {room}
      ensures unchanged(old(LiveRooms()))
    {
      var newCode := FreshCode(attempts);
      room := new GameRoom.Create(newCode, questions, plan);
      rooms := rooms[newCode := Alive(room)];
      LiveInsert(old(rooms), newCode, room);
    }

    /**
     * The last connection to a room went away and its `Room` was dropped: the
     * entry stays in the registry but no longer upgrades.
     */
    method RoomDropped(code: string)
      requires Valid() && code in rooms
      modifies this
      ensures Valid()
      ensures rooms == old(rooms)[code := Dead]
    {
      rooms := rooms[code := Dead];
    }
  }

  /** A room just created under a code is found by a join with that code, over an ASCII corpus. */
  lemma CreatedRoomIsJoinable(t: Table, draws: seq<Draw>, rooms: Registry, room: GameRoom, username: Username)
    requires WellFormed(t) && AsciiTable(t) && |draws| == CodeLength && username != []
    ensures var code := Generate(t, None, draws);
      JoinCheck(username, Some(code), rooms[code := Alive(room)]) == JoinExisting(room)
  {
    GeneratedCodeLength(t, draws);
  }
}
