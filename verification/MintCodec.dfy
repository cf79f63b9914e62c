/**
 The faucet's mint list: `create_transaction` in `faucet.rs` encodes it, the script `mint.masm` decodes and mints it.

 Stacks have their top at index 0. `adv_push.n` moves n elements one by one, so it reverses them.
 */
module MintCodec {
  import opened Wrappers
  import opened Felts
  import opened Assets

  datatype MintNote = MintNote(recipient: Word, noteType: Felt, tag: Felt, amount: Felt)

  function EncodeNote(n: MintNote): seq<Felt> {
    [n.recipient.w3, n.recipient.w2, n.recipient.w1, n.recipient.w0, n.noteType, n.tag, n.amount]
  }

  function EncodeNotes(notes: seq<MintNote>): seq<Felt> {
    if notes == [] then [] else EncodeNote(notes[0]) + EncodeNotes(notes[1..])
  }

  /** `note_data`: the number of notes, then each note with its recipient digest reversed. */
  method CreateTransaction(notes: seq<MintNote>) returns (noteData: seq<Felt>)
    ensures noteData == [ToFelt(|notes|)] + EncodeNotes(notes)
  {
    noteData := [ToFelt(|notes|)];
    for i := 0 to |notes|
      invariant noteData + EncodeNotes(notes[i..]) == [ToFelt(|notes|)] + EncodeNotes(notes)
    {
      var note := notes[i];
      ghost var before := noteData;
      noteData := noteData + [note.recipient.w3, note.recipient.w2, note.recipient.w1, note.recipient.w0];
      noteData := noteData + [note.noteType];
      noteData := noteData + [note.tag];
      noteData := noteData + [note.amount];
      assert notes[i..][1..] == notes[i + 1..];
      assert noteData == before + EncodeNote(note);
      assert noteData + EncodeNotes(notes[i + 1..]) == before + (EncodeNote(note) + EncodeNotes(notes[i + 1..]));
    }
    assert notes[|notes|..] == [];
  }

  function Reverse(s: seq<Felt>): (r: seq<Felt>)
    ensures |r| == |s|
  {
    seq(|s|, i requires 0 <= i < |s| => s[|s| - 1 - i])
  }

  /** `adv_push.n`, as the new operand and advice stacks. */
  function AdvPush(os: seq<Felt>, advice: seq<Felt>, n: nat): (seq<Felt>, seq<Felt>)
    requires n <= |advice|
  {
    (Reverse(advice[..n]) + os, advice[n..])
  }

  /** `mint_and_send` reads [amount, tag, note_type, RECIPIENT, pad(9)] and leaves [note_idx, pad(15)]. */
  function MintedBy(os: seq<Felt>): MintNote
    requires |os| >= 16
  {
    MintNote(Word(os[3], os[4], os[5], os[6]), os[2], os[1], os[0])
  }

  const PADDING: seq<Felt> := [0, 0, 0, 0, 0, 0, 0, 0, 0]

  function DecodeNote(advice: seq<Felt>): MintNote
    requires |advice| >= 7
  {
    MintNote(Word(advice[3], advice[2], advice[1], advice[0]), advice[4], advice[5], advice[6])
  }

  /** `left` more notes from the advice stack; the notes decoded so far come first. */
  function DecodeNotes(left: nat, advice: seq<Felt>, soFar: seq<MintNote>): Option<(seq<MintNote>, seq<Felt>)> {
    if left == 0 then Some((soFar, advice))
    else if |advice| < 7 then None
    else DecodeNotes(left - 1, advice[7..], soFar + [DecodeNote(advice)])
  }

  /** The notes an advice stack stands for, and what is left of it. */
  function Decode(advice: seq<Felt>): Option<(seq<MintNote>, seq<Felt>)> {
    if advice == [] then None else DecodeNotes(advice[0], advice[1..], [])
  }

  /** The two pushes lay out the stack that `mint_and_send` expects, with the counters below it. */
  lemma PushedForMint(counters: seq<Felt>, advice: seq<Felt>)
    requires |advice| >= 7
    ensures var first := AdvPush(PADDING + counters, advice, 4);
            var second := AdvPush(first.0, first.1, 3);
            && |second.0| == 16 + |counters|
            && second.0[16..] == counters
            && MintedBy(second.0) == DecodeNote(advice)
            && second.1 == advice[7..]
  {
    var first := AdvPush(PADDING + counters, advice, 4);
    var second := AdvPush(first.0, first.1, 3);
    var a := advice;
    assert second.0 == [a[6], a[5], a[4], a[3], a[2], a[1], a[0]] + PADDING + counters;
  }

  /** Whether the faucet mints a note after those it has minted already; its supply limit is one reason not to. */
  type Faucet = (seq<MintNote>, MintNote) -> bool

  ghost predicate MintsAll(faucet: Faucet, notes: seq<MintNote>) {
    forall i | 0 <= i < |notes| :: faucet(notes[..i], notes[i])
  }

  datatype MintRun = MintRun(minted: seq<MintNote>, operands: seq<Felt>, advice: seq<Felt>)

  /** What the script promises for an advice stack: all of its notes minted and nothing left behind, or failure. */
  ghost function Minting(advice: seq<Felt>, base: seq<Felt>, faucet: Faucet): Option<MintRun> {
    match Decode(advice)
    case None => None
    case Some((notes, rest)) => if MintsAll(faucet, notes) then Some(MintRun(notes, base, rest)) else None
  }

  lemma {:induction false} DecodeKeepsPrefix(left: nat, advice: seq<Felt>, soFar: seq<MintNote>)
    requires DecodeNotes(left, advice, soFar).Some?
    ensures soFar <= DecodeNotes(left, advice, soFar).value.0
    decreases left
  {
    if left > 0 {
      DecodeKeepsPrefix(left - 1, advice[7..], soFar + [DecodeNote(advice)]);
    }
  }

  /** A note that the faucet refuses is among those the advice stack decodes to, so not all of them are minted. */
  lemma RefusedIsDecoded(left: nat, advice: seq<Felt>, minted: seq<MintNote>, faucet: Faucet)
    requires left > 0 && |advice| >= 7 && !faucet(minted, DecodeNote(advice))
    requires DecodeNotes(left, advice, minted).Some?
    ensures !MintsAll(faucet, DecodeNotes(left, advice, minted).value.0)
  {
    DecodeKeepsPrefix(left - 1, advice[7..], minted + [DecodeNote(advice)]);
    var notes := DecodeNotes(left, advice, minted).value.0;
    assert notes[..|minted|] == minted && notes[|minted|] == DecodeNote(advice);
  }

  /**
   The main loop on an advice stack already unhashed from the map. `noteIdx` are the indices that the kernel
   returns. The script fails when the advice stack runs dry or the faucet refuses to mint.
   */
  method Mint(advice: seq<Felt>, base: seq<Felt>, noteIdx: nat -> Felt, faucet: Faucet) returns (r: Option<MintRun>)
    ensures r == Minting(advice, base, faucet)
  {
    if advice == [] {
      return None;
    }
    var count := AdvPush(base, advice, 1);
    var os, rest := count.0, count.1;
    assert advice[..1] == [advice[0]] && Reverse([advice[0]]) == [advice[0]];
    os := [0] + os;
    var minted: seq<MintNote> := [];
    ghost var n := advice[0];
    while os[0] != os[1]
      invariant |minted| <= n && os == [|minted|, n] + base
      invariant Decode(advice) == DecodeNotes(n - |minted|, rest, minted)
      invariant MintsAll(faucet, minted)
      decreases n - |minted|
    {
      if |rest| < 7 {
        return None;
      }
      ghost var counters, remaining := os, rest;
      os := PADDING + os;
      var recipient := AdvPush(os, rest, 4);
      os, rest := recipient.0, recipient.1;
      var parameters := AdvPush(os, rest, 3);
      os, rest := parameters.0, parameters.1;
      PushedForMint(counters, remaining);
      if !faucet(minted, MintedBy(os)) {
        if Decode(advice).Some? {
          RefusedIsDecoded(n - |minted|, remaining, minted, faucet);
        }
        return None;
      }
      minted := minted + [MintedBy(os)];
      assert forall i | 0 <= i < |minted| - 1 :: minted[..|minted| - 1][..i] == minted[..i];
      os := [noteIdx(|minted|), 0, 0, 0, 0, 0, 0, 0, 0, 0, 0, 0, 0, 0, 0, 0] + os[16..];
      os := os[4..][4..][4..][4..];
      os := [FAdd(os[0], 1)] + os[1..];
    }
    os := os[1..];
    os := os[1..];
    return Some(MintRun(minted, os, rest));
  }

  lemma {:induction false} DecodeEncoded(notes: seq<MintNote>, trailing: seq<Felt>, soFar: seq<MintNote>)
    ensures DecodeNotes(|notes|, EncodeNotes(notes) + trailing, soFar) == Some((soFar + notes, trailing))
    decreases |notes|
  {
    if notes == [] {
      assert EncodeNotes(notes) + trailing == trailing && soFar + notes == soFar;
    } else {
      var advice := EncodeNotes(notes) + trailing;
      var tail := EncodeNotes(notes[1..]) + trailing;
      assert advice == EncodeNote(notes[0]) + tail;
      assert advice[7..] == tail && DecodeNote(advice) == notes[0];
      DecodeEncoded(notes[1..], trailing, soFar + [notes[0]]);
      assert soFar + [notes[0]] + notes[1..] == soFar + notes;
    }
  }

  lemma DecodeSplit(count: Felt, body: seq<Felt>)
    ensures Decode([count] + body) == DecodeNotes(count, body, [])
  {
    assert ([count] + body)[1..] == body;
  }

  /** The script mints precisely the encoded notes, in order, and consumes the encoding exactly. */
  lemma CodecRoundTrip(notes: seq<MintNote>, trailing: seq<Felt>)
    requires |notes| < P
    ensures Decode([ToFelt(|notes|)] + (EncodeNotes(notes) + trailing)) == Some((notes, trailing))
  {
    DecodeSplit(|notes|, EncodeNotes(notes) + trailing);
    DecodeEncoded(notes, trailing, []);
    assert [] + notes == notes;
  }

  lemma {:induction false} EncodeConcat(a: seq<MintNote>, b: seq<MintNote>)
    ensures EncodeNotes(a + b) == EncodeNotes(a) + EncodeNotes(b)
    decreases |a|
  {
    if a == [] {
      assert a + b == b;
    } else {
      assert (a + b)[1..] == a[1..] + b;
      EncodeConcat(a[1..], b);
    }
  }

  lemma {:induction false} DecodedIsEncoding(left: nat, advice: seq<Felt>, soFar: seq<MintNote>)
    requires DecodeNotes(left, advice, soFar).Some?
    ensures var (notes, rest) := DecodeNotes(left, advice, soFar).value;
            && |notes| == |soFar| + left
            && EncodeNotes(soFar) + advice == EncodeNotes(notes) + rest
    decreases left
  {
    if left > 0 {
      var n := DecodeNote(advice);
      EncodeConcat(soFar, [n]);
      assert [n][1..] == [];
      assert EncodeNotes([n]) == EncodeNote(n);
      assert advice == EncodeNote(n) + advice[7..];
      DecodedIsEncoding(left - 1, advice[7..], soFar + [n]);
    }
  }

  /** Nothing else mints those notes: every advice stack the script accepts starts with their encoding. */
  lemma AcceptedIsEncoding(advice: seq<Felt>)
    requires Decode(advice).Some?
    ensures var (notes, rest) := Decode(advice).value;
            |notes| == advice[0] && advice == [advice[0]] + EncodeNotes(notes) + rest
  {
    var tail := advice[1..];
    DecodedIsEncoding(advice[0], tail, []);
    var (notes, rest) := DecodeNotes(advice[0], tail, []).value;
    assert [] + tail == tail;
    assert tail == EncodeNotes(notes) + rest;
    assert advice == [advice[0]] + tail;
  }

  /** The script fails exactly on advice stacks too short for the number of notes they announce. */
  lemma {:induction false} DecodeFailsWhenShort(left: nat, advice: seq<Felt>, soFar: seq<MintNote>)
    ensures DecodeNotes(left, advice, soFar).Some? <==> |advice| >= 7 * left
    decreases left
  {
    if left > 0 && |advice| >= 7 {
      DecodeFailsWhenShort(left - 1, advice[7..], soFar + [DecodeNote(advice)]);
    }
  }
}
