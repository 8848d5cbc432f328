/**
 * The pronounceable room-code generator of `src/id_gen.rs`: a 128-slot
 * successor table built from a word list (`FunnyWords`) and a first-order
 * Markov walk over it (`Chain`).
 *
 * The random number generator is replaced by an oracle: each call of
 * `Chain.Next` receives a `Draw` holding the choices the generator would have
 * made, so that every output is a function of the table, the previous output
 * and the draw.
 */
module IdGen {
  import opened Wrappers

  /** Slots of the successor table, one per 7-bit code. */
  const Slots: nat := 128
  /** Slot 0 holds the letters that begin words. */
  const StartSlot: nat := 0
  /** Size of the alphabet `rand::distributions::Alphanumeric` samples from. */
  const AlphanumericSize: nat := 62

  /** A slot and the successor `push` appends to it (`None` ends a word). */
  type Pair = (nat, Option<char>)
  /** The contents of `next_letter`: one successor list per slot. */
  type Table = seq<seq<Option<char>>>

  /** The slot of a character: `c as u8 as usize` keeps the low byte of the code point. */
  function Key(c: char): (k: nat)
    ensures k < 256
    ensures IsAscii(c) ==> k == c as int
  {
    (c as int) % 256
  }

  /** The slot of a window's first element: the start marker for `None`. */
  function SlotOf(m: Option<char>): nat
  {
    match m
    case None => StartSlot
    case Some(c) => Key(c)
  }

  /** A word that `push` can store without indexing past the table. */
  predicate Pushable(word: string)
  {
    forall i :: 0 <= i < |word| ==> Key(word[i]) < Slots
  }

  predicate AllPushable(words: seq<string>)
  {
    forall i :: 0 <= i < |words| ==> Pushable(words[i])
  }

  /** An entry that `next` can later use as a key without indexing past the table. */
  predicate Keyed(m: Option<char>)
  {
    m.Some? ==> Key(m.value) < Slots
  }

  /** A table of 128 slots whose entries can all serve as keys. */
  predicate WellFormed(t: Table)
  {
    |t| == Slots &&
    forall k, j :: 0 <= k < |t| && 0 <= j < |t[k]| ==> Keyed(t[k][j])
  }

  predicate IsAscii(c: char)
  {
    (c as int) < 128
  }

  /** Every character stored in the table is 7-bit ASCII. */
  predicate AsciiTable(t: Table)
  {
    forall k, j :: 0 <= k < |t| && 0 <= j < |t[k]| && t[k][j].Some? ==> IsAscii(t[k][j].value)
  }

  /** `c` is stored somewhere in the table. */
  ghost predicate InTable(t: Table, c: char)
  {
    exists k, j :: 0 <= k < |t| && 0 <= j < |t[k]| && t[k][j] == Some(c)
  }

  // ---------------------------------------------------------------------------
  // Building the table: FunnyWords::push and FunnyWords::from_iter
  // ---------------------------------------------------------------------------

  /** The word framed by the start and end markers: `None, Some(w0), ..., Some(wn-1), None`. */
  function Marked(word: string): (m: seq<Option<char>>)
    ensures |m| == |word| + 2 && m[0] == None && m[|word| + 1] == None
    ensures forall i :: 0 <= i < |word| ==> m[i + 1] == Some(word[i])
  {
    [None] + seq(|word|, i requires 0 <= i < |word| => Some(word[i])) + [None]
  }

  /**
   * The pairs `push` appends, in order (`tuple_windows` over the marked word):
   * the start slot gains the first letter (or the end marker for an empty
   * word), every letter gains the letter after it, the last letter gains the
   * end marker.
   */
  function Windows(word: string): (ps: seq<Pair>)
    ensures |ps| == |word| + 1
    ensures ps[0] == (StartSlot, if word == [] then None else Some(word[0]))
    ensures forall i :: 0 <= i < |word| ==>
      ps[i + 1] == (Key(word[i]), if i + 1 < |word| then Some(word[i + 1]) else None)
  {
    var m := Marked(word);
    seq(|word| + 1, i requires 0 <= i < |word| + 1 => (SlotOf(m[i]), m[i + 1]))
  }

  /** Every pair of a storable word names a slot of the table. */
  predicate Fits(t: Table, ps: seq<Pair>)
  {
    forall j :: 0 <= j < |ps| ==> ps[j].0 < |t|
  }

  lemma WindowsFit(t: Table, word: string)
    requires |t| == Slots && Pushable(word)
    ensures Fits(t, Windows(word))
  {
    var ps := Windows(word);
    forall j | 0 <= j < |ps| ensures ps[j].0 < |t| {
      if j > 0 {
        assert ps[(j - 1) + 1].0 == Key(word[j - 1]);
      }
    }
  }

  /** One `self.next_letter[key].push(next)`. */
  function Append(t: Table, p: Pair): (r: Table)
    requires p.0 < |t|
    ensures |r| == |t| && r[p.0] == t[p.0] + [p.1]
    ensures forall k :: 0 <= k < |t| && k != p.0 ==> r[k] == t[k]
  {
    t[p.0 := t[p.0] + [p.1]]
  }

  /** The pairs appended in order, as the loop of `push` does. */
  function PushAll(t: Table, ps: seq<Pair>): (r: Table)
    requires Fits(t, ps)
    ensures |r| == |t|
    decreases |ps|
  {
    if ps == [] then t else Append(PushAll(t, ps[..|ps| - 1]), ps[|ps| - 1])
  }

  /** The successors the pairs give to slot `k`, in order. */
  function Added(ps: seq<Pair>, k: nat): seq<Option<char>>
    decreases |ps|
  {
    if ps == [] then []
    else Added(ps[..|ps| - 1], k) + (if ps[|ps| - 1].0 == k then [ps[|ps| - 1].1] else [])
  }

  /** Appending pairs only ever extends a slot, by exactly the pairs aimed at it. */
  lemma {:induction false} PushAllSlot(t: Table, ps: seq<Pair>, k: nat)
    requires Fits(t, ps) && k < |t|
    ensures PushAll(t, ps)[k] == t[k] + Added(ps, k)
    decreases |ps|
  {
    if ps != [] {
      PushAllSlot(t, ps[..|ps| - 1], k);
    }
  }

  lemma {:induction false} AddedContains(ps: seq<Pair>, j: nat)
    requires j < |ps|
    ensures ps[j].1 in Added(ps, ps[j].0)
    decreases |ps|
  {
    if j < |ps| - 1 {
      AddedContains(ps[..|ps| - 1], j);
    }
  }

  lemma {:induction false} AddedFrom(ps: seq<Pair>, k: nat, x: Option<char>)
    requires x in Added(ps, k)
    ensures exists j :: 0 <= j < |ps| && ps[j] == (k, x)
    decreases |ps|
  {
    var init := ps[..|ps| - 1];
    if x in Added(init, k) {
      AddedFrom(init, k, x);
      var j :| 0 <= j < |init| && init[j] == (k, x);
      assert ps[j] == (k, x);
    } else {
      assert ps[|ps| - 1] == (k, x);
    }
  }

  lemma {:induction false} AddedNone(ps: seq<Pair>, k: nat)
    requires forall j :: 0 <= j < |ps| ==> ps[j].0 != k
    ensures Added(ps, k) == []
    decreases |ps|
  {
    if ps != [] {
      AddedNone(ps[..|ps| - 1], k);
    }
  }

  lemma {:induction false} AddedFirst(ps: seq<Pair>, k: nat)
    requires |ps| > 0 && ps[0].0 == k
    ensures |Added(ps, k)| > 0 && Added(ps, k)[0] == ps[0].1
    decreases |ps|
  {
    if |ps| > 1 {
      AddedFirst(ps[..|ps| - 1], k);
    }
  }

  /** Number of entries across all slots. */
  function Total(t: Table): nat
    decreases |t|
  {
    if t == [] then 0 else Total(t[..|t| - 1]) + |t[|t| - 1]|
  }

  lemma {:induction false} TotalAppend(t: Table, p: Pair)
    requires p.0 < |t|
    ensures Total(Append(t, p)) == Total(t) + 1
    decreases |t|
  {
    var u := Append(t, p);
    if p.0 == |t| - 1 {
      assert u[..|u| - 1] == t[..|t| - 1];
    } else {
      assert u[..|u| - 1] == Append(t[..|t| - 1], p);
      TotalAppend(t[..|t| - 1], p);
    }
  }

  lemma {:induction false} TotalPushAll(t: Table, ps: seq<Pair>)
    requires Fits(t, ps)
    ensures Total(PushAll(t, ps)) == Total(t) + |ps|
    decreases |ps|
  {
    if ps != [] {
      TotalPushAll(t, ps[..|ps| - 1]);
      TotalAppend(PushAll(t, ps[..|ps| - 1]), ps[|ps| - 1]);
    }
  }

  lemma {:induction false} TotalOfEmpty(t: Table)
    requires forall k :: 0 <= k < |t| ==> t[k] == []
    ensures Total(t) == 0
    decreases |t|
  {
    if t != [] {
      TotalOfEmpty(t[..|t| - 1]);
    }
  }

  /** `FunnyWords::push` as a function of the table. */
  function PushWord(t: Table, word: string): (r: Table)
    requires |t| == Slots && Pushable(word)
    ensures |r| == Slots
  {
    WindowsFit(t, word);
    PushAll(t, Windows(word))
  }

  /** Everything `push` stores is an old entry, the end marker or a letter of the word. */
  lemma PushWordEntries(t: Table, word: string, k: nat, x: Option<char>)
    requires |t| == Slots && Pushable(word) && k < Slots
    requires x in PushWord(t, word)[k]
    ensures x in t[k] || x == None || x.value in word
  {
    var ps := Windows(word);
    WindowsFit(t, word);
    PushAllSlot(t, ps, k);
    if x !in t[k] {
      assert x in Added(ps, k);
      AddedFrom(ps, k, x);
      var j :| 0 <= j < |ps| && ps[j] == (k, x);
      if j > 0 && x.Some? {
        assert ps[(j - 1) + 1] == ps[j];
        assert x.value == word[j];
      }
    }
  }

  /** `push` keeps a table well formed: every stored letter can later serve as a key. */
  lemma PushWordWellFormed(t: Table, word: string)
    requires WellFormed(t) && Pushable(word)
    ensures WellFormed(PushWord(t, word))
  {
    var r: Table := PushWord(t, word);
    forall k: nat, j: nat | k < |r| && j < |r[k]| ensures Keyed(r[k][j]) {
      assert r[k][j] in r[k];
      PushWordEntries(t, word, k, r[k][j]);
    }
  }

  /** `push` keeps a table ASCII when the word is. */
  lemma PushWordAscii(t: Table, word: string)
    requires |t| == Slots && AsciiTable(t) && Pushable(word)
    requires forall i :: 0 <= i < |word| ==> IsAscii(word[i])
    ensures AsciiTable(PushWord(t, word))
  {
    var r: Table := PushWord(t, word);
    forall k: nat, j: nat | k < |r| && j < |r[k]| && r[k][j].Some? ensures IsAscii(r[k][j].value) {
      assert r[k][j] in r[k];
      PushWordEntries(t, word, k, r[k][j]);
    }
  }

  /** `push` of an n-letter word adds exactly n + 1 entries across the table. */
  lemma PushWordCount(t: Table, word: string)
    requires |t| == Slots && Pushable(word)
    ensures Total(PushWord(t, word)) == Total(t) + |word| + 1
  {
    WindowsFit(t, word);
    TotalPushAll(t, Windows(word));
  }

  /** `push` only appends: every slot keeps its old entries, in place, as a prefix. */
  lemma PushWordAppendsOnly(t: Table, word: string, k: nat)
    requires |t| == Slots && Pushable(word) && k < Slots
    ensures |PushWord(t, word)[k]| >= |t[k]|
    ensures PushWord(t, word)[k][..|t[k]|] == t[k]
  {
    WindowsFit(t, word);
    PushAllSlot(t, Windows(word), k);
  }

  /** A slot other than the start slot that no letter of the word maps to is left as it was. */
  lemma PushWordUntouched(t: Table, word: string, k: nat)
    requires |t| == Slots && Pushable(word) && k < Slots && k != StartSlot
    requires forall i :: 0 <= i < |word| ==> Key(word[i]) != k
    ensures PushWord(t, word)[k] == t[k]
  {
    var ps := Windows(word);
    WindowsFit(t, word);
    forall j | 0 <= j < |ps| ensures ps[j].0 != k {
      if j > 0 {
        assert ps[(j - 1) + 1].0 == Key(word[j - 1]);
      }
    }
    AddedNone(ps, k);
    PushAllSlot(t, ps, k);
  }

  /** The start slot's first new entry is the word's first letter, or the end marker for "". */
  lemma PushWordStart(t: Table, word: string)
    requires |t| == Slots && Pushable(word)
    ensures |PushWord(t, word)[StartSlot]| > |t[StartSlot]|
    ensures PushWord(t, word)[StartSlot][|t[StartSlot]|] == if word == [] then None else Some(word[0])
  {
    var ps := Windows(word);
    WindowsFit(t, word);
    AddedFirst(ps, StartSlot);
    PushAllSlot(t, ps, StartSlot);
  }

  /** After `push`, the slot of letter i holds, among its new entries, the letter after it (or the end marker). */
  lemma PushWordSuccessor(t: Table, word: string, i: nat)
    requires |t| == Slots && Pushable(word) && i < |word|
    ensures |PushWord(t, word)[Key(word[i])]| >= |t[Key(word[i])]|
    ensures (if i + 1 < |word| then Some(word[i + 1]) else None)
      in PushWord(t, word)[Key(word[i])][|t[Key(word[i])]|..]
  {
    var ps := Windows(word);
    WindowsFit(t, word);
    AddedContains(ps, i + 1);
    PushAllSlot(t, ps, Key(word[i]));
    assert PushWord(t, word)[Key(word[i])][|t[Key(word[i])]|..] == Added(ps, Key(word[i]));
  }

  /** `FunnyWords::default`: all 128 successor lists empty. */
  function EmptyTable(): (t: Table)
    ensures |t| == Slots && forall k :: 0 <= k < Slots ==> t[k] == []
  {
    seq(Slots, _ => [])
  }

  /** `FunnyWords::from_iter`: the words pushed in order onto the default table. */
  function FromWords(words: seq<string>): (t: Table)
    requires AllPushable(words)
    ensures WellFormed(t)
    decreases |words|
  {
    if words == [] then EmptyTable()
    else
      var before := FromWords(words[..|words| - 1]);
      PushWordWellFormed(before, words[|words| - 1]);
      PushWord(before, words[|words| - 1])
  }

  /** Entries a corpus contributes: one per letter plus one end marker per word. */
  function CorpusSize(words: seq<string>): nat
    decreases |words|
  {
    if words == [] then 0 else CorpusSize(words[..|words| - 1]) + |words[|words| - 1]| + 1
  }

  lemma {:induction false} FromWordsTotal(words: seq<string>)
    requires AllPushable(words)
    ensures Total(FromWords(words)) == CorpusSize(words)
    decreases |words|
  {
    if words == [] {
      TotalOfEmpty(EmptyTable());
    } else {
      FromWordsTotal(words[..|words| - 1]);
      PushWordCount(FromWords(words[..|words| - 1]), words[|words| - 1]);
    }
  }

  /** Every word contributes a start entry, so the start slot is non-empty for a non-empty corpus. */
  lemma {:induction false} FromWordsStart(words: seq<string>)
    requires AllPushable(words)
    ensures |FromWords(words)[StartSlot]| >= |words|
    decreases |words|
  {
    if words != [] {
      FromWordsStart(words[..|words| - 1]);
      PushWordStart(FromWords(words[..|words| - 1]), words[|words| - 1]);
    }
  }

  /** An ASCII corpus gives an ASCII table. */
  lemma {:induction false} FromWordsAscii(words: seq<string>)
    requires AllPushable(words)
    requires forall w, i :: w in words && 0 <= i < |w| ==> IsAscii(w[i])
    ensures AsciiTable(FromWords(words))
    decreases |words|
  {
    if words != [] {
      var last := words[|words| - 1];
      assert last in words;
      FromWordsAscii(words[..|words| - 1]);
      PushWordAscii(FromWords(words[..|words| - 1]), last);
    }
  }

  // ---------------------------------------------------------------------------
  // Walking the table: Chain::rand_char and Chain::next
  // ---------------------------------------------------------------------------

  /** The random choices one call of `next` consumes. */
  datatype Draw = Draw(
    start: nat,    // index drawn from the start slot (reduced modulo its length)
    keep: bool,    // `rng.gen::<f32>() > entropy`: the candidate key survives
    succ: nat,     // index drawn from the key's successor list (reduced modulo its length)
    fallback: nat  // index drawn from the alphanumeric alphabet (reduced modulo 62)
  )

  /** The alphabet of `rand::distributions::Alphanumeric`, `A`-`Z`, `a`-`z`, `0`-`9`, by index. */
  function AlphanumericAt(i: nat): (c: char)
    requires i < AlphanumericSize
    ensures 'A' <= c <= 'Z' <==> i < 26
    ensures 'a' <= c <= 'z' <==> 26 <= i < 52
    ensures '0' <= c <= '9' <==> 52 <= i
  {
    if i < 26 then (('A' as int) + i) as char
    else if i < 52 then (('a' as int) + i - 26) as char
    else (('0' as int) + i - 52) as char
  }

  /** `char::to_ascii_uppercase`. */
  function ToAsciiUppercase(c: char): (u: char)
    ensures !('a' <= u <= 'z')
    ensures 'a' <= c <= 'z' ==> 'A' <= u <= 'Z'
    ensures !('a' <= c <= 'z') ==> u == c
    ensures IsAscii(u) <==> IsAscii(c)
  {
    if 'a' <= c <= 'z' then ((c as int) - 32) as char else c
  }

  predicate IsUpperAlphanumeric(c: char)
  {
    'A' <= c <= 'Z' || '0' <= c <= '9'
  }

  /** `Chain::rand_char`: an alphanumeric sample, upper-cased. */
  function RandChar(pick: nat): (c: char)
    requires pick < AlphanumericSize
    ensures IsUpperAlphanumeric(c) && IsAscii(c)
  {
    ToAsciiUppercase(AlphanumericAt(pick))
  }

  /** Every uppercase letter and digit is a possible result of `rand_char`. */
  lemma RandCharOnto(c: char)
    requires IsUpperAlphanumeric(c)
    ensures exists pick :: 0 <= pick < AlphanumericSize && RandChar(pick) == c
  {
    if 'A' <= c <= 'Z' {
      assert RandChar((c as int) - ('A' as int)) == c;
    } else {
      assert RandChar((c as int) - ('0' as int) + 52) == c;
    }
  }

  /** The picks `rand_char` maps to `c`. */
  function Preimage(c: char): set<nat>
  {
    set pick: nat | pick < AlphanumericSize && RandChar(pick) == c
  }

  /**
   * Upper-casing folds two alphabet entries onto every letter and one onto
   * every digit, so `rand_char` draws a given letter twice as often as a
   * given digit.
   */
  lemma RandCharBias(c: char)
    requires IsUpperAlphanumeric(c)
    ensures 'A' <= c <= 'Z' ==> |Preimage(c)| == 2
    ensures '0' <= c <= '9' ==> |Preimage(c)| == 1
  {
    if 'A' <= c <= 'Z' {
      var upper := (c as int) - ('A' as int);
      assert RandChar(upper) == c && RandChar(upper + 26) == c;
      assert Preimage(c) == {upper, upper + 26};
    } else {
      var digit := (c as int) - ('0' as int) + 52;
      assert RandChar(digit) == c;
      assert Preimage(c) == {digit};
    }
  }

  /** `choose(rng).copied().flatten()`: an entry of the list, or `None` for an empty list. */
  function Choose(options: seq<Option<char>>, pick: nat): (r: Option<char>)
    ensures r.Some? ==> r in options
    ensures |options| == 0 ==> r == None
  {
    if |options| == 0 then None else options[pick % |options|]
  }

  /** Whatever `Choose` picks from a well-formed table can serve as a key. */
  lemma ChooseKeyed(t: Table, k: nat, pick: nat)
    requires WellFormed(t) && k < Slots
    ensures Keyed(Choose(t[k], pick))
  {
    if |t[k]| > 0 {
      assert Choose(t[k], pick) == t[k][pick % |t[k]|];
    }
  }

  /** The candidate key: the previous output, else a word-start letter. */
  function StartKey(t: Table, current: Option<char>, d: Draw): (key: Option<char>)
    requires WellFormed(t)
    ensures Keyed(current) ==> Keyed(key)
    ensures current.Some? ==> key == current
    ensures current.None? ==> key == Choose(t[StartSlot], d.start)
  {
    if current.Some? then current
    else
      ChooseKeyed(t, StartSlot, d.start);
      Choose(t[StartSlot], d.start)
  }

  /**
   * One step of `Chain::next`: the candidate key survives the entropy filter,
   * a successor is drawn from its list; an end marker, an empty list or a
   * filtered-out key falls back to `rand_char`.
   */
  function NextChar(t: Table, current: Option<char>, d: Draw): (c: char)
    requires WellFormed(t) && Keyed(current)
    ensures Keyed(Some(c))
    ensures IsUpperAlphanumeric(c) || InTable(t, c)
    ensures var key := StartKey(t, current, d);
      key.Some? && d.keep && Choose(t[Key(key.value)], d.succ).Some? ==>
        Some(c) in t[Key(key.value)] && c == Choose(t[Key(key.value)], d.succ).value
    ensures var key := StartKey(t, current, d);
      key.None? || !d.keep || Choose(t[Key(key.value)], d.succ).None? ==>
        c == RandChar(d.fallback % AlphanumericSize)
    ensures (current.None? && t[StartSlot] == []) || !d.keep ==> c == RandChar(d.fallback % AlphanumericSize)
  {
    var key := StartKey(t, current, d);
    var kept := if key.Some? && d.keep then key else None;
    var succ := if kept.Some? then Choose(t[Key(kept.value)], d.succ) else None;
    if succ.Some? then
      ChooseKeyed(t, Key(kept.value), d.succ);
      succ.value
    else
      RandChar(d.fallback % AlphanumericSize)
  }

  /** The characters the chain yields for a sequence of draws (`chain.take(n)`). */
  function Generate(t: Table, current: Option<char>, draws: seq<Draw>): (s: string)
    requires WellFormed(t) && Keyed(current)
    ensures |s| == |draws|
    decreases |draws|
  {
    if draws == [] then []
    else
      var c := NextChar(t, current, draws[0]);
      [c] + Generate(t, Some(c), draws[1..])
  }

  /** Each generated character is upper-case alphanumeric or found in the table. */
  lemma {:induction false} GenerateChars(t: Table, current: Option<char>, draws: seq<Draw>)
    requires WellFormed(t) && Keyed(current)
    ensures forall i :: 0 <= i < |draws| ==>
      IsUpperAlphanumeric(Generate(t, current, draws)[i]) || InTable(t, Generate(t, current, draws)[i])
    decreases |draws|
  {
    if draws != [] {
      var c := NextChar(t, current, draws[0]);
      GenerateChars(t, Some(c), draws[1..]);
      var s := Generate(t, current, draws);
      assert s == [c] + Generate(t, Some(c), draws[1..]);
      forall i | 1 <= i < |draws| ensures s[i] == Generate(t, Some(c), draws[1..])[i - 1] {
      }
    }
  }

  /** The characters from draw `i` on: the next character, then the rest from it. */
  lemma GenerateFrom(t: Table, current: Option<char>, draws: seq<Draw>, i: nat)
    requires WellFormed(t) && Keyed(current) && i < |draws|
    ensures Generate(t, current, draws[i..])
      == [NextChar(t, current, draws[i])] + Generate(t, Some(NextChar(t, current, draws[i])), draws[i + 1..])
  {
    assert draws[i..][1..] == draws[i + 1..];
  }

  /** Concatenation regroups freely. */
  lemma ConcatAssoc<T>(a: seq<T>, b: seq<T>, c: seq<T>)
    ensures a + (b + c) == (a + b) + c
  {
  }

  /** One more draw extends what has been generated so far by the character it yields. */
  lemma GenerateStep(t: Table, start: Option<char>, draws: seq<Draw>, s: string, current: Option<char>, i: nat)
    requires WellFormed(t) && Keyed(start) && Keyed(current) && i < |draws|
    requires s + Generate(t, current, draws[i..]) == Generate(t, start, draws)
    ensures var c := NextChar(t, current, draws[i]);
      (s + [c]) + Generate(t, Some(c), draws[i + 1..]) == Generate(t, start, draws)
  {
    var c := NextChar(t, current, draws[i]);
    var rest := Generate(t, Some(c), draws[i + 1..]);
    GenerateFrom(t, current, draws, i);
    ConcatAssoc(s, [c], rest);
  }

  /** Over an ASCII table every generated code is ASCII. */
  lemma GenerateAscii(t: Table, current: Option<char>, draws: seq<Draw>)
    requires WellFormed(t) && Keyed(current) && AsciiTable(t)
    ensures forall i :: 0 <= i < |draws| ==> IsAscii(Generate(t, current, draws)[i])
  {
    var s := Generate(t, current, draws);
    GenerateChars(t, current, draws);
    forall i | 0 <= i < |draws| ensures IsAscii(s[i]) {
      if !IsUpperAlphanumeric(s[i]) {
        assert InTable(t, s[i]);
        var k, j :| 0 <= k < |t| && 0 <= j < |t[k]| && t[k][j] == Some(s[i]);
      }
    }
  }

  /** `FunnyWords`: the successor table, one list per 7-bit slot. */
  class FunnyWords {
    const nextLetter: array<seq<Option<char>>>

    ghost predicate Valid()
      reads this, nextLetter
    {
      nextLetter.Length == Slots && WellFormed(nextLetter[..])
    }

    ghost function Table(): Table
      reads this, nextLetter
    {
      nextLetter[..]
    }

    /** `FunnyWords::default`. */
    constructor Default()
      ensures Valid() && fresh(nextLetter)
      ensures Table() == EmptyTable()
    {
      nextLetter := new seq<Option<char>>[Slots](_ => []);
    }

    /** `FunnyWords::push`. */
    method Push(word: string)
      requires Valid() && Pushable(word)
      modifies nextLetter
      ensures Valid() && Table() == PushWord(old(Table()), word)
    {
      ghost var ps := Windows(word);
      WindowsFit(old(nextLetter[..]), word);
      PushWordWellFormed(old(nextLetter[..]), word);
      var marked := Marked(word);
      var i := 0;
      while i < |word| + 1
        invariant 0 <= i <= |word| + 1
        invariant Fits(old(nextLetter[..]), ps[..i])
        invariant nextLetter[..] == PushAll(old(nextLetter[..]), ps[..i])
      {
        assert ps[..i + 1][..i] == ps[..i];
        var key := SlotOf(marked[i]);
        assert (key, marked[i + 1]) == ps[i];
        nextLetter[key] := nextLetter[key] + [marked[i + 1]];
        i := i + 1;
      }
      assert ps[..i] == ps;
    }

    /** `FunnyWords::from_iter`: push every word, in order, onto the default table. */
    static method FromIter(words: seq<string>) returns (fw: FunnyWords)
      requires AllPushable(words)
      ensures fresh(fw) && fresh(fw.nextLetter) && fw.Valid()
      ensures fw.Table() == FromWords(words)
    {
      fw := new FunnyWords.Default();
      var i := 0;
      while i < |words|
        invariant 0 <= i <= |words|
        invariant fresh(fw.nextLetter) && fw.Valid()
        invariant fw.Table() == FromWords(words[..i])
      {
        assert words[..i + 1][..i] == words[..i];
        fw.Push(words[i]);
        i := i + 1;
      }
      assert words[..i] == words;
    }
  }

  /** `Chain`: the Markov walk, remembering its last output. */
  class Chain {
    const funnyWords: FunnyWords
    /** Probability of the fallback; the oracle's `keep` flag stands for the comparison with it. */
    const entropy: real
    var current: Option<char>

    ghost predicate Valid()
      reads this, funnyWords, funnyWords.nextLetter
    {
      funnyWords.Valid() && Keyed(current)
    }

    /** `Chain::new`. */
    constructor (funnyWords: FunnyWords, entropy: real)
      requires funnyWords.Valid()
      ensures Valid() && current == None
      ensures this.funnyWords == funnyWords && this.entropy == entropy
    {
      this.funnyWords := funnyWords;
      this.entropy := entropy;
      current := None;
    }

    /** `<Chain as Iterator>::next`: always yields a character and remembers it. */
    method Next(d: Draw) returns (r: Option<char>)
      requires Valid()
      modifies this
      ensures Valid() && r.Some? && current == r
      ensures r == Some(NextChar(funnyWords.Table(), old(current), d))
    {
      var key := current;
      if key.None? {
        var starts := funnyWords.nextLetter[StartSlot];
        key := if |starts| == 0 then None else starts[d.start % |starts|];
      }
      if key.Some? && !d.keep {
        key := None;
      }
      var succ: Option<char> := None;
      if key.Some? {
        var options := funnyWords.nextLetter[Key(key.value)];
        succ := if |options| == 0 then None else options[d.succ % |options|];
      }
      r := if succ.Some? then succ else Some(RandChar(d.fallback % AlphanumericSize));
      current := r;
    }

    /** `chain.take(n).collect::<String>()`: exactly one character per draw. */
    method Take(draws: seq<Draw>) returns (s: string)
      requires Valid()
      modifies this
      ensures Valid() && s == Generate(funnyWords.Table(), old(current), draws)
      ensures draws == [] ==> current == old(current)
      ensures draws != [] ==> current == Some(s[|s| - 1])
    {
      ghost var t := funnyWords.Table();
      s := [];
      var i := 0;
      while i < |draws|
        invariant 0 <= i <= |draws| && Valid() && |s| == i
        invariant t == funnyWords.Table()
        invariant i == 0 ==> current == old(current)
        invariant i > 0 ==> current == Some(s[|s| - 1])
        invariant s + Generate(t, current, draws[i..]) == Generate(t, old(current), draws)
      {
        GenerateStep(t, old(current), draws, s, current, i);
        var c := Next(draws[i]);
        s := s + [c.value];
        i := i + 1;
      }
      assert draws[i..] == [];
    }
  }
}
