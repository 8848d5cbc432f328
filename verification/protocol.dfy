/**
 * The values exchanged by the game server of `src/main.rs`: players, votes,
 * prompts and the events the server sends. Sends and broadcasts of the
 * connection-hosting library are returned as `Outgoing` values.
 */
module Protocol {
  import opened Wrappers
  import opened Steps

  /** Length of a room code, counted as Rust's `String::len` counts: in UTF-8 bytes. */
  const CodeLength: nat := 8

  type Username = string

  datatype Player = Player(username: Username, avatar: string)

  /** (voter, choice): the choice is a username or an answer key. */
  type Vote = (Username, Username)

  /** A prompt of the question file: a plain question, or a tag prompt with its option triples. */
  datatype Prompt =
    | Question(text: string)
    | Tag(text: string, options: seq<(string, string, string)>)

  /** A prompt as one client receives it: a tag prompt also names its subject player. */
  datatype ClientPrompt =
    | Question(text: string)
    | Tag(text: string, subject: Username, options: seq<(string, string, string)>)

  /** `Prompt::into_client`: embed the subject's username into a tag prompt. */
  function IntoClient(p: Prompt, username: Username): (c: ClientPrompt)
    ensures c.text == p.text
    ensures c.Question? <==> p.Question?
    ensures c.Tag? ==> c.subject == username && c.options == p.options
  {
    match p
    case Question(s) => ClientPrompt.Question(s)
    case Tag(s, v) => ClientPrompt.Tag(s, username, v)
  }

  /** The prompt a client prompt was made from: the subject dropped. */
  function Template(c: ClientPrompt): Prompt
  {
    match c
    case Question(s) => Prompt.Question(s)
    case Tag(s, _, v) => Prompt.Tag(s, v)
  }

  /** `into_client` loses nothing but adds the subject: the two directions of the round trip. */
  lemma IntoClientRoundTrip(p: Prompt, c: ClientPrompt, username: Username)
    ensures Template(IntoClient(p, username)) == p
    ensures c.Tag? ==> IntoClient(Template(c), c.subject) == c
    ensures c.Question? ==> IntoClient(Template(c), username) == c
  {
  }

  datatype ErrorMsg = UsedUsername | EmptyUsername | RoomNotFound

  datatype ServerEvent =
    | RoomProbeResult(probed: Option<string>)
    | OnRoomJoin(code: string, players: seq<Player>, step: Step)
    | RoomUpdate(players: seq<Player>)
    | NewRound(question: ClientPrompt)
    | RoundUpdate(readyPlayerCount: nat)
    | RoundOver(votes: seq<Vote>)
    | Error(kind: ErrorMsg)
    | GameOver

  /** `cx.send`, `cx.broadcast` and `cx.broadcast_with` (one event per recipient). */
  datatype Outgoing =
    | Send(event: ServerEvent)
    | Broadcast(event: ServerEvent)
    | BroadcastEach(events: seq<ServerEvent>)

  /** Bytes of one character in UTF-8. */
  function Utf8Width(c: char): nat
  {
    if (c as int) < 0x80 then 1
    else if (c as int) < 0x800 then 2
    else if (c as int) < 0x1_0000 then 3
    else 4
  }

  /** `String::len`: the UTF-8 length, equal to the character count exactly for ASCII text. */
  function Utf8Len(s: string): (n: nat)
    ensures n >= |s|
    ensures n == |s| <==> forall i :: 0 <= i < |s| ==> (s[i] as int) < 0x80
    decreases |s|
  {
    if s == [] then 0 else Utf8Len(s[..|s| - 1]) + Utf8Width(s[|s| - 1])
  }
}
