/**
 The bytes below the event reader. Each network chunk is decoded on its own with
 `String::from_utf8_lossy`, so a cut inside a character is visible. Proved here: decoding the
 chunks gives the text back exactly when every cut falls between characters.
 */
module SseBytes {
  import opened Prelude
  import opened SseReader

  type Byte = b: nat | b < 256

  const REPLACEMENT: char := '\U{FFFD}'

  // ----- encoding -----

  /** The bytes of one character. */
  function Utf8(c: char): (bytes: seq<Byte>)
    ensures 1 <= |bytes| <= 4
  {
    var cp := c as int;
    var high := cp / 64;
    if cp < 0x80 then [cp]
    else if cp < 0x800 then [0xC0 + high, 0x80 + cp % 64]
    else if cp < 0x10000 then [0xE0 + high / 64, 0x80 + high % 64, 0x80 + cp % 64]
    else [0xF0 + high / 64 / 64, 0x80 + high / 64 % 64, 0x80 + high % 64, 0x80 + cp % 64]
  }

  function Utf8Text(text: string): seq<Byte> {
    if text == "" then [] else Utf8(text[0]) + Utf8Text(text[1..])
  }

  // ----- lossy decoding -----

  predicate IsContinuation(b: Byte) {
    0x80 <= b < 0xC0
  }

  predicate ContinuesAt(bytes: seq<Byte>, i: nat) {
    i < |bytes| && IsContinuation(bytes[i])
  }

  /** Which second bytes may follow a lead byte of a three- or four-byte character. */
  predicate SecondAllowed(lead: Byte, second: Byte) {
    if lead == 0xE0 then 0xA0 <= second < 0xC0
    else if lead == 0xED then 0x80 <= second < 0xA0
    else if lead == 0xF0 then 0x90 <= second < 0xC0
    else if lead == 0xF4 then 0x80 <= second < 0x90
    else IsContinuation(second)
  }

  /** How many bytes a character with this lead byte has; zero when no character starts so. */
  function Width(lead: Byte): nat {
    if lead < 0x80 then 1
    else if 0xC2 <= lead < 0xE0 then 2
    else if 0xE0 <= lead < 0xF0 then 3
    else if 0xF0 <= lead < 0xF5 then 4
    else 0
  }

  /** The well-formed start of the input: a whole character, or the longest prefix that could have become one. */
  function Reach(bytes: seq<Byte>): (n: nat)
    requires bytes != []
    ensures 1 <= n <= |bytes| && n <= 4
    ensures forall i | 1 <= i < n :: IsContinuation(bytes[i])
  {
    var w := Width(bytes[0]);
    if w <= 1 then 1
    else if w == 2 then if ContinuesAt(bytes, 1) then 2 else 1
    else if !(|bytes| > 1 && SecondAllowed(bytes[0], bytes[1])) then 1
    else if !ContinuesAt(bytes, 2) then 2
    else if w == 3 || !ContinuesAt(bytes, 3) then 3
    else 4
  }

  function CodePoint(bytes: seq<Byte>): int
    requires bytes != [] && Width(bytes[0]) == |bytes|
  {
    match |bytes|
    case 1 => bytes[0]
    case 2 => Join(bytes[0] as int - 0xC0, bytes[1])
    case 3 => Join(Join(bytes[0] as int - 0xE0, bytes[1]), bytes[2])
    case _ => Join(Join(Join(bytes[0] as int - 0xF0, bytes[1]), bytes[2]), bytes[3])
  }

  function Join(high: int, continuation: Byte): int {
    high * 64 + (continuation as int - 0x80)
  }

  predicate IsScalar(cp: int) {
    0 <= cp < 0xD800 || 0xE000 <= cp < 0x110000
  }

  /** The character that the reached bytes stand for, or the replacement character. */
  function Decoded(bytes: seq<Byte>): char
    requires bytes != []
  {
    if Width(bytes[0]) == |bytes| && IsScalar(CodePoint(bytes)) then CodePoint(bytes) as char else REPLACEMENT
  }

  function Lossy(bytes: seq<Byte>): string
    decreases |bytes|
  {
    if bytes == [] then ""
    else
      var n := Reach(bytes);
      [Decoded(bytes[..n])] + Lossy(bytes[n..])
  }

  // ----- whole characters decode to themselves -----

  lemma {:induction false} ReachesCharacter(c: char, rest: seq<Byte>)
    ensures Reach(Utf8(c) + rest) == |Utf8(c)|
    ensures Decoded(Utf8(c)) == c
  {
    var cp := c as int;
    var bytes := Utf8(c) + rest;
    assert bytes[0] == Utf8(c)[0];
    assert Width(Utf8(c)[0]) == |Utf8(c)|;
    assert forall i | 1 <= i < |Utf8(c)| :: bytes[i] == Utf8(c)[i] && IsContinuation(Utf8(c)[i]);
  }

  lemma {:induction false} LossyOfText(text: string, rest: seq<Byte>)
    ensures Lossy(Utf8Text(text) + rest) == text + Lossy(rest)
    decreases |text|
  {
    if text == "" {
      assert Utf8Text(text) + rest == rest;
      assert "" + Lossy(rest) == Lossy(rest);
    } else {
      hide *;
      var c, tail := text[0], Utf8Text(text[1..]) + rest;
      TextCons(text, rest);
      LossyCharacter(c, tail);
      LossyOfText(text[1..], rest);
      Prepend(text, Lossy(rest));
    }
  }

  lemma {:induction false} Prepend(text: string, rest: string)
    requires text != ""
    ensures text + rest == [text[0]] + (text[1..] + rest)
  {
  }

  lemma {:induction false} TextCons(text: string, rest: seq<Byte>)
    requires text != ""
    ensures Utf8Text(text) + rest == Utf8(text[0]) + (Utf8Text(text[1..]) + rest)
  {
    hide Utf8;
  }

  lemma {:induction false} LossyCharacter(c: char, rest: seq<Byte>)
    ensures Lossy(Utf8(c) + rest) == [c] + Lossy(rest)
  {
    ReachesCharacter(c, rest);
    var bytes := Utf8(c) + rest;
    assert bytes[..|Utf8(c)|] == Utf8(c) && bytes[|Utf8(c)|..] == rest;
    hide Utf8, Reach, Decoded;
  }

  // ----- counting -----

  /** Bytes that are not continuations; every character has one. */
  function Leads(bytes: seq<Byte>): nat {
    if bytes == [] then 0 else (if IsContinuation(bytes[0]) then 0 else 1) + Leads(bytes[1..])
  }

  lemma {:induction false} LeadsAppend(a: seq<Byte>, b: seq<Byte>)
    ensures Leads(a + b) == Leads(a) + Leads(b)
  {
    if a == [] {
      assert a + b == b;
    } else {
      assert (a + b)[1..] == a[1..] + b;
      LeadsAppend(a[1..], b);
    }
  }

  lemma {:induction false} ContinuationsOnly(bytes: seq<Byte>)
    requires forall b <- bytes :: IsContinuation(b)
    ensures Leads(bytes) == 0
  {
    if bytes == [] {
    } else {
      assert bytes[0] in bytes;
      assert forall b <- bytes[1..] :: b in bytes;
      ContinuationsOnly(bytes[1..]);
    }
  }

  lemma {:induction false} LeadsOfCharacter(c: char)
    ensures Leads(Utf8(c)) == 1 && !IsContinuation(Utf8(c)[0])
  {
    var bytes := Utf8(c);
    assert !IsContinuation(bytes[0]);
    ContinuationsOnly(bytes[1..]);
  }

  lemma {:induction false} LeadsOfText(text: string)
    ensures Leads(Utf8Text(text)) == |text|
  {
    if text == "" {
    } else {
      LeadsOfCharacter(text[0]);
      LeadsOfText(text[1..]);
      LeadsAppend(Utf8(text[0]), Utf8Text(text[1..]));
    }
  }

  predicate StartsInside(chunk: seq<Byte>) {
    chunk != [] && IsContinuation(chunk[0])
  }

  /** Decoding yields a character for every lead byte, and one more when the chunk starts inside a character. */
  lemma {:induction false} LossyLength(bytes: seq<Byte>)
    ensures |Lossy(bytes)| >= Leads(bytes) + if StartsInside(bytes) then 1 else 0
    decreases |bytes|
  {
    if bytes == [] {
    } else {
      var n := Reach(bytes);
      LossyLength(bytes[n..]);
      assert bytes == [bytes[0]] + bytes[1..n] + bytes[n..];
      LeadsAppend([bytes[0]] + bytes[1..n], bytes[n..]);
      LeadsAppend([bytes[0]], bytes[1..n]);
      ContinuationsOnly(bytes[1..n]);
      assert [bytes[0]][1..] == [];
      assert StartsInside(bytes) ==> Width(bytes[0]) == 0;
      hide Reach, Decoded;
    }
  }

  // ----- cuts -----

  function Concat(chunks: seq<seq<Byte>>): seq<Byte> {
    if chunks == [] then [] else chunks[0] + Concat(chunks[1..])
  }

  /** Each chunk decoded on its own, as the reader does. */
  function DecodeEach(chunks: seq<seq<Byte>>): seq<string> {
    if chunks == [] then [] else [Lossy(chunks[0])] + DecodeEach(chunks[1..])
  }

  /** No chunk starts inside a character. */
  predicate CutsBetweenCharacters(chunks: seq<seq<Byte>>) {
    forall chunk <- chunks :: !StartsInside(chunk)
  }

  /** A cut before a byte that starts a character, or at the end, cuts the text between characters. */
  lemma {:induction false} CutText(text: string, a: seq<Byte>, b: seq<Byte>) returns (n: nat)
    requires a + b == Utf8Text(text) && !StartsInside(b)
    ensures n <= |text| && a == Utf8Text(text[..n]) && b == Utf8Text(text[n..])
    decreases |text|
  {
    if a == [] {
      n := 0;
      assert text[0..] == text && a + b == b;
    } else {
      assert text != "";
      var u, rest := Utf8(text[0]), Utf8Text(text[1..]);
      LaterBytesContinue(text[0]);
      assert a + b == u + rest;
      CharacterNotCut(a, b, u, rest);
      assert a == u + a[|u|..] by {
        assert a[..|u|] == (a + b)[..|u|] == u;
      }
      assert a[|u|..] + b == rest by {
        assert (a + b)[|u|..] == a[|u|..] + b && (u + rest)[|u|..] == rest;
      }
      var m := CutText(text[1..], a[|u|..], b);
      n := m + 1;
      assert text[..n][1..] == text[1..][..m] && text[n..] == text[1..][m..];
      assert text[..n][0] == text[0];
    }
  }

  lemma {:induction false} CharacterNotCut(a: seq<Byte>, b: seq<Byte>, u: seq<Byte>, rest: seq<Byte>)
    requires a + b == u + rest && a != [] && forall i | 1 <= i < |u| :: IsContinuation(u[i])
    ensures |a| >= |u| || StartsInside(b)
  {
    if |a| < |u| {
      assert b[0] == (a + b)[|a|] == u[|a|];
    }
  }

  lemma {:induction false} LaterBytesContinue(c: char)
    ensures forall i | 1 <= i < |Utf8(c)| :: IsContinuation(Utf8(c)[i])
  {
  }

  lemma {:induction false} ConcatAligned(chunks: seq<seq<Byte>>)
    requires CutsBetweenCharacters(chunks)
    ensures !StartsInside(Concat(chunks))
  {
    if chunks == [] {
    } else {
      assert chunks[0] in chunks;
      assert forall chunk <- chunks[1..] :: chunk in chunks;
      ConcatAligned(chunks[1..]);
    }
  }

  lemma {:induction false} AlignedCutsDecode(text: string, chunks: seq<seq<Byte>>)
    requires Concat(chunks) == Utf8Text(text) && CutsBetweenCharacters(chunks)
    ensures Flatten(DecodeEach(chunks)) == text
    decreases |chunks|
  {
    if chunks == [] {
      LeadsOfText(text);
    } else {
      var rest := chunks[1..];
      assert forall chunk <- rest :: chunk in chunks;
      ConcatAligned(rest);
      var n := CutText(text, chunks[0], Concat(rest));
      AlignedCutsDecode(text[n..], rest);
      LossyOfText(text[..n], []);
      assert Utf8Text(text[..n]) + [] == chunks[0];
      assert text[..n] + "" == text[..n] && text[..n] + text[n..] == text;
      assert Lossy([]) == "";
      assert DecodeEach(chunks)[1..] == DecodeEach(rest);
      hide Lossy, Utf8Text;
    }
  }

  lemma {:induction false} MisalignedCutsGrow(chunks: seq<seq<Byte>>)
    ensures |Flatten(DecodeEach(chunks))| >= Leads(Concat(chunks)) + if CutsBetweenCharacters(chunks) then 0 else 1
    decreases |chunks|
  {
    if chunks == [] {
    } else {
      var rest := chunks[1..];
      MisalignedCutsGrow(rest);
      LossyLength(chunks[0]);
      LeadsAppend(chunks[0], Concat(rest));
      assert DecodeEach(chunks)[1..] == DecodeEach(rest);
      if !CutsBetweenCharacters(chunks) {
        var chunk :| chunk in chunks && StartsInside(chunk);
        assert chunk == chunks[0] || chunk in rest;
      }
      hide Lossy, Leads, StartsInside;
    }
  }

  /** The decoded chunks give the text back if and only if no chunk starts inside a character. */
  lemma {:induction false} DecodesIff(text: string, chunks: seq<seq<Byte>>)
    requires Concat(chunks) == Utf8Text(text)
    ensures Flatten(DecodeEach(chunks)) == text <==> CutsBetweenCharacters(chunks)
  {
    MisalignedCutsGrow(chunks);
    LeadsOfText(text);
    hide Leads, Lossy, Utf8Text, Flatten, DecodeEach;
    if CutsBetweenCharacters(chunks) {
      AlignedCutsDecode(text, chunks);
    }
  }

  /** With such cuts the reader ends as if it had read the text in one piece. */
  lemma {:induction false} AlignedBytesRead(env: Env, text: string, chunks: seq<seq<Byte>>)
    requires Concat(chunks) == Utf8Text(text) && CutsBetweenCharacters(chunks)
    ensures FeedAll(env, START, DecodeEach(chunks)) == ReadText(env, text)
  {
    DecodesIff(text, chunks);
    ChunkingIsInvisible(env, DecodeEach(chunks));
  }
}
