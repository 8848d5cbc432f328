# warta-juge-tes-potes: rooms, lobby and room-code generator in Dafny

This project models the server core of *warta-juge-tes-potes*, a party game
where friends vote about one another. It has two parts.

- **The game engine of `src/main.rs`.**
  - A `Step` runs through the lobby, ten questions and the end of the game,
    and is serialised to an integer (module `Steps`).
  - Prompts, players, votes and server events are plain values (module `Protocol`).
  - A `GameRoom` is a class whose roster, votes and step its handlers update
    in place (module `Rooms`).
  - The `Lobby` keeps a registry from room code to a room handle that may
    be dead. It answers probes and handles JoinRoom requests: it checks them
    in a fixed order and creates a room under a fresh code when none is given
    (module `Lobbies`).
  - Sends and broadcasts are returned as `Outgoing` values.
- **The pronounceable room-code generator of `src/id_gen.rs`** (module `IdGen`).
  - `FunnyWords` is a class over a 128-slot array of successor lists.
    Slot 0 marks the start of a word and `None` marks its end.
  - `Chain` is a class whose `current` field remembers the last character.
    Each call of `Next` takes a `Draw`, which holds the random choices of that
    call: the index into the start list, whether the entropy filter let the key
    through, the index into the successor list, and the fallback character.
  - Each method is specified by a pure function (`PushWord`, `FromWords`,
    `NextChar`, `Generate`). The lemmas are stated about those functions.

Behaviour of the code worth knowing:

- `rand_char` upper-cases a draw from 62 alphanumerics. Each letter therefore
  has two preimages and each digit one, so the fallback is not uniform over its
  36 outputs (`IdGen.RandCharBias`).
- The start-list draw is used as a key, and only its successor is emitted. So
  the first letter of a corpus word is never produced from the start list.
- Generated characters are upper-case alphanumerics *or* characters from the
  corpus, which need not be upper case (`IdGen.GenerateChars`).
- Registry entries whose room has gone are never removed. Their codes stay
  keys, so probes and joins report them as not found, and the creation loop
  still avoids them (`Lobbies.Lobby.RoomDropped`, `Lobbies.FirstFresh`).
- `push` accepts any character whose code point modulo 256 is below 128,
  not only ASCII. A non-ASCII character can therefore end up in a code. That
  room's code is then longer than 8 bytes, so a join by that code fails the
  length check. Over an ASCII corpus every generated code passes the check
  (`Lobbies.CreatedRoomIsJoinable`, `Lobbies.Lobby.RegisteredCodesHaveCodeLength`).

## Model

| member | source | states |
|---|---|---|
| Steps.StepAt | src/main.rs:51-55 | each of the 12 positions of the cycle is a valid step whose position is that number |
| Steps.Advance | src/main.rs:58-69 | on a valid step, `advance` yields a valid step one place further around the 12-step cycle |
| Steps.AdvanceTimesOrdinal | src/main.rs:58-69 | n advances move a valid step n places around the cycle, modulo 12 |
| Steps.AdvanceTimesFromLobby | src/main.rs:58-69 | from the lobby, n advances reach the step at position n modulo 12, so the game repeats with period 12 |
| Steps.GameSequence | src/main.rs:58-69 | from the lobby, advances 1 to 10 reach Question(0) to Question(9), the 11th reaches Finished, the 12th returns to the lobby |
| Steps.Serialize | src/main.rs:72-85 | the integer fits an i16, lies in 0..9 for valid steps, and equals the index of a question |
| Steps.SerializeCollisions | src/main.rs:77-81 | Lobby serialises like Question(0), and Finished like Question(9) |
| Protocol.IntoClient | src/main.rs:499-510 | the text is kept, the kind is kept, and a tag prompt gets the username as subject with its options unchanged |
| Protocol.IntoClientRoundTrip | src/main.rs:499-510 | dropping the subject gives back the prompt, and re-embedding it gives back the client prompt |
| Protocol.Utf8Len | src/main.rs:230 | the byte length is at least the character count, and equals it exactly when every character is ASCII |
| Rooms.Recorded | src/main.rs:491-495 | voters stay pairwise distinct, the voter has a vote afterwards, and the old votes are a prefix of at most one more vote |
| Rooms.FirstVoteWins | src/main.rs:491-495 | a voter's earlier choice survives a second vote, a first vote is recorded, and other voters' choices are unchanged |
| Rooms.RecordedIdempotent | src/main.rs:491-495 | a second vote by the same voter leaves the votes unchanged |
| Rooms.WithoutVoter | src/main.rs:401 | exactly the votes of other voters are kept, the leaver has no vote left, and distinct voters stay distinct |
| Rooms.WithoutVoterConcat | src/main.rs:401 | the votes retain distributes over concatenation, so the kept votes keep their relative order |
| Rooms.WithoutPlayer | src/main.rs:402 | `players.retain`: the roster never grows |
| Rooms.WithoutPlayerMembers | src/main.rs:402 | exactly the players with another username are kept |
| Rooms.WithoutPlayerDistinct | src/main.rs:402 | distinct usernames stay distinct after retaining |
| Rooms.WithoutPlayerKeeps | src/main.rs:402 | exactly the players with another username are kept, the username is no longer seated, and distinct usernames stay distinct |
| Rooms.WithoutPlayerConcat | src/main.rs:402 | retain distributes over concatenation, so relative order is kept |
| Rooms.RemoveMiddle | src/main.rs:402 | a single entry with the username is removed and its neighbours are joined in order |
| Rooms.LeaveRemovesOne | src/main.rs:402 | in a roster with distinct usernames, a leave removes exactly the leaver's entry and keeps the rest in order |
| Rooms.JoinThenLeave | src/main.rs:398-402 | joining a new username and then leaving restores the roster |
| Rooms.RoundReply | src/main.rs:380-388 | RoundUpdate with the vote count exactly when there are fewer votes than players, RoundOver with all votes otherwise |
| Rooms.UsernameTaken | src/main.rs:279 | some seated player has the username |
| Rooms.HasVoted | src/main.rs:492 | some vote has the voter |
| Rooms.RoundOverIffAllVoted | src/main.rs:380-388 | when every voter is seated, the reply is RoundOver exactly when every seated player has voted |
| Rooms.NewRoundEvents | src/main.rs:354-359 | one NewRound per recipient, each personalised with its subject's username |
| Rooms.NewRoundSubjectsAreRoster | src/main.rs:348-359 | for a shuffle of the roster, every seated player is the subject of some recipient's tag prompt |
| Rooms.QuestionPlanExists | src/main.rs:475 | `choose_multiple` always has a result: distinct indices below the question count, min(10, count) of them |
| Rooms.GameRoom.Create | src/main.rs:467-485 | a new room has the given code, empty roster and votes, the lobby step, and a plan of 10 distinct valid question indices |
| Rooms.GameRoom.Join | src/main.rs:487-489 | the player is appended at the end and the earlier players keep their order |
| Rooms.GameRoom.RecordVote | src/main.rs:491-495 | the votes become `Recorded` of the old votes, so voters stay distinct |
| Rooms.GameRoom.AdvanceStep | src/main.rs:58-69 | the stored step and the returned step are both the next step |
| Rooms.GameRoom.OnJoin | src/main.rs:312-325 | broadcasts the roster, then sends the room's code, roster and step to the newcomer |
| Rooms.GameRoom.OnStartRound | src/main.rs:341-377 | clears the votes and advances the step, then sends prompts with the planned question, GameOver, or the room snapshot, by the new step |
| Rooms.GameRoom.OnAnswer | src/main.rs:378-393 | records the vote, then broadcasts RoundUpdate with the vote count while there are fewer votes than players, and RoundOver with all votes otherwise |
| Rooms.GameRoom.OnLeaveRoom | src/main.rs:394 | the connection is relocated to the lobby |
| Rooms.GameRoom.OnLeave | src/main.rs:398-407 | removes the leaver's votes and seat, keeps the step, and broadcasts the new roster |
| Lobbies.IsLive | src/main.rs:206-208 | the code is a key and its handle upgrades to a room |
| Lobbies.Probe | src/main.rs:205-209 | the probe result is the code exactly when the code is a key whose room is alive |
| Lobbies.JoinCheck | src/main.rs:220-248 | the JoinRoom decision: EmptyUsername, then RoomNotFound for a wrong byte length or an unknown or dead code, then the live room, or creation if no code was given |
| Lobbies.ShortcutIsSound | src/main.rs:229-236 | when all keys have length 8, the length shortcut decides like the lookup alone |
| Lobbies.ProbeAgreesWithJoin | src/main.rs:205-248 | for a nonempty username and an 8-byte code, a probe answers exactly when a join reaches a room |
| Lobbies.FirstFresh | src/main.rs:250-258 | the loop stops at the first attempt whose code is not a key, and every earlier attempt's code is a key |
| Lobbies.GeneratedCodeLength | src/main.rs:230-253 | over an ASCII corpus an 8-character generated code is 8 bytes long |
| Lobbies.CodeCharsLength | src/main.rs:230 | an 8-character code of table or fallback characters is 8 bytes long over an ASCII corpus |
| Lobbies.CreatedRoomIsJoinable | src/main.rs:230-272 | over an ASCII corpus, a join by the code of a just-inserted room reaches that room |
| Lobbies.Lobby.constructor | src/main.rs:450-454 | the lobby starts with no rooms |
| Lobbies.Lobby.RegisteredCodesHaveCodeLength | src/main.rs:230-258 | over an ASCII corpus every registered code passes the length check |
| Lobbies.Lobby.OnRoomProbe | src/main.rs:202-214 | sends RoomProbeResult with the code exactly when a live room has it |
| Lobbies.LiveInsert | src/main.rs:271-272 | inserting a room's weak reference under a new code adds exactly that room to the rooms that upgrade |
| Lobbies.Lobby.OpenRoom | src/main.rs:250-274 | a fresh code from the first attempt not already a key, a new room in the lobby state with no players and the given plan, registered under that code; the other rooms are untouched |
| Lobbies.Lobby.FreshCode | src/main.rs:250-258 | returns the code of the first attempt not already a key; the code has 8 table or fallback characters |
| Lobbies.Lobby.OnJoinRoom | src/main.rs:215-304 | on rejection, the error in check order with registry and rooms unchanged; on join, UsedUsername with nothing changed or the player appended and relocated; on creation, a fresh code inserted with a new room seating only the player, other entries unchanged |
| Lobbies.Lobby.RoomDropped | src/main.rs:182 | a dropped room's entry stays in the registry as a dead handle |
| IdGen.EmptyTable | src/id_gen.rs:14-22 | 128 successor lists, all empty |
| IdGen.FunnyWords.Default | src/id_gen.rs:14-22 | the table of a new `FunnyWords` is the empty table |
| IdGen.Key | src/id_gen.rs:35 | `c as u8 as usize` is below 256, and is the code point itself for an ASCII character |
| IdGen.Append | src/id_gen.rs:38 | one push appends the successor to the slot's list and leaves every other slot unchanged |
| IdGen.PushAll | src/id_gen.rs:28-39 | the loop of pushes keeps the table size; `IdGen.PushAllSlot` gives each slot's contents |
| IdGen.PushAllSlot | src/id_gen.rs:28-39 | after the loop, each slot holds its old list followed by the successors the windows give it, in order |
| IdGen.Windows | src/id_gen.rs:28-36 | n+1 windows: start slot to first character or None, each character's slot to the next character or None |
| IdGen.WindowsFit | src/id_gen.rs:33-36 | every window's slot indexes the 128-slot table when the word passes the u8 cast check |
| IdGen.PushWord | src/id_gen.rs:25-40 | pushing keeps the table at 128 slots |
| IdGen.FunnyWords.Push | src/id_gen.rs:25-40 | the array's contents become `PushWord` of the old contents |
| IdGen.PushWordCount | src/id_gen.rs:28-39 | a word of n characters adds exactly n+1 entries to the table |
| IdGen.PushWordStart | src/id_gen.rs:28-38 | slot 0 gains the first character, or None for the empty word |
| IdGen.PushWordSuccessor | src/id_gen.rs:28-38 | each character's slot gains its successor in the word, or None after the last one |
| IdGen.PushWordAppendsOnly | src/id_gen.rs:38 | every slot keeps its old entries as a prefix |
| IdGen.PushWordUntouched | src/id_gen.rs:28-39 | slots other than 0 and the word's characters' slots are unchanged |
| IdGen.PushWordEntries | src/id_gen.rs:28-39 | any new entry is None or a character of the word |
| IdGen.PushWordWellFormed | src/id_gen.rs:33-38 | every stored entry can later serve as a key |
| IdGen.PushWordAscii | src/id_gen.rs:28-39 | pushing an ASCII word keeps an ASCII table ASCII |
| IdGen.FromWords | src/id_gen.rs:43-50 | building from a word list gives a well-formed table |
| IdGen.FunnyWords.FromIter | src/id_gen.rs:43-50 | the table is the default table with the words pushed in order |
| IdGen.FromWordsTotal | src/id_gen.rs:43-50 | the table holds one entry per character plus one per word |
| IdGen.FromWordsStart | src/id_gen.rs:43-50 | slot 0 has at least one entry per word |
| IdGen.FromWordsAscii | src/id_gen.rs:43-50 | an ASCII corpus gives an ASCII table |
| IdGen.Chain.constructor | src/id_gen.rs:62-69 | a new chain has no current character |
| IdGen.AlphanumericAt | src/id_gen.rs:72 | the 62-character alphabet: indices 0-25 are `A`-`Z`, 26-51 are `a`-`z`, 52-61 are `0`-`9` |
| IdGen.ToAsciiUppercase | src/id_gen.rs:72 | no lower-case ASCII letter remains, lower-case letters become upper-case, every other character is unchanged, and ASCII stays ASCII |
| IdGen.RandChar | src/id_gen.rs:71-73 | the fallback is an upper-case ASCII letter or a digit |
| IdGen.RandCharOnto | src/id_gen.rs:71-73 | every upper-case letter and digit can be produced |
| IdGen.RandCharBias | src/id_gen.rs:71-73 | each letter has two of the 62 draws and each digit one |
| IdGen.Choose | src/id_gen.rs:87-97 | a choice is an element of the list, and an empty list gives None |
| IdGen.StartKey | src/id_gen.rs:84-91 | the key is `current` when there is one, and otherwise the draw from the start list, which may be None; a character key can index the table |
| IdGen.NextChar | src/id_gen.rs:79-99 | always a character. A kept key whose successor draw is a character yields exactly that character, an entry of the key's list. No key, a failed entropy filter, an end marker or an empty successor list yields the fallback |
| IdGen.Chain.Next | src/id_gen.rs:79-105 | returns Some, stores it as `current`, and equals `NextChar` of the old state |
| IdGen.Generate | src/id_gen.rs:76-110 | one character per draw |
| IdGen.GenerateChars | src/id_gen.rs:76-110 | each generated character is upper-case alphanumeric or found in the table |
| IdGen.GenerateFrom | src/id_gen.rs:76-110 | from any draw on, the chain yields that draw's character and then continues from it |
| IdGen.GenerateStep | src/id_gen.rs:76-110 | one more draw extends the characters generated so far by exactly the character it yields |
| IdGen.Chain.Take | src/main.rs:253 | `take(n)` collects exactly the `Generate` string of the draws, leaves the chain valid, and leaves it remembering the last character (unchanged for no draws) |
| IdGen.GenerateAscii | src/id_gen.rs:84-99 | over an ASCII table every generated character is ASCII |

## Left out

- The `ws_hotel` library is not part of this model. Sends and broadcasts are returned values. Room handles are registry entries that are alive or dead. Relocation is a returned value. A connection's identity is the `me` parameter of `OnLeave`. A failed send ends a handler early through `?`, so the later sends of that handler are lost (a failed broadcast in `on_join` skips the OnRoomJoin send). Every state change comes before the sends, so only messages are lost, and the model returns every message.
- The Rocket server, `launch`, `index` and the reading of `funny_words.txt` and `questions.ron` are I/O and are left out. The lobby is built from a `FunnyWords` and a question list.
- JSON encoding and decoding of events is left out. A message that does not decode is dropped by the source without any state change, so no operation models it. Non-text messages reach `unreachable!()`.
- Randomness is an oracle. `Draw` holds one call of `next`, `attempts` holds the draws of each code-generation attempt, `plan` holds the result of `choose_multiple`, and `shuffled` holds the result of `shuffle`. The lobby's entropy constant 0.1 is kept, but the `f32` comparison with it is the boolean `keep`.
- Lobbies.Lobby.OnJoinRoom: requires some attempt to produce a code that is not yet a key. The source loop would otherwise run forever.
- Lobbies.Lobby.FreshCode: requires the same, for the same reason.
- Lobbies.Lobby.OpenRoom: requires the same, for the same reason.
- Lobbies.Lobby.constructor: requires at least ten prompts, which every room of the lobby needs (see `Rooms.GameRoom.Create` below).
- Rooms.GameRoom.Create: requires at least ten prompts. With fewer, the source still creates the room, but it panics when a round reaches a missing plan index. That panic is not modelled.
- Rooms.GameRoom.OnStartRound: does not model the pairing of recipients with shuffled players done by `broadcast_with`. Recipients are taken in shuffle order. `Rooms.NewRoundSubjectsAreRoster` states that the subjects are the roster.
- Rooms.GameRoom.OnAnswer: the `u32` cast of the ready count is not modelled. A roster never comes close to 2^32 votes.
- Steps.Advance: for an index of 255 it wraps as a release build does. A debug build would panic. Neither is reachable from a valid step.
- The `println!` of the room after a join is left out. The `lobby` field of `GameRoom` is the target of `ToLobby`. The `Weak` question list is `allQuestions`, whose `upgrade().unwrap()` (src/main.rs line 346) cannot fail while the lobby holds the list.
- `static/main.js` is the browser client and is not part of this model.
- Concurrency is left out. The connection library runs handlers one at a time, and the model is sequential.
