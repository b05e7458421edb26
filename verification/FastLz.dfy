/** The FastLZ level-1 block format: instructions, their bytes, and a decompressor.

    Written from section "Block Format", level 1, of the FastLZ README. The length
    estimator in `FastLz` is measured against this module, which knows nothing about it. */
module FastLzFormat {
  import opened Bytes

  datatype Token =
    | Literals(run: seq<byte>)
    | Match(distance: nat, length: nat)

  predicate ValidToken(t: Token) {
    match t
    case Literals(run) => 1 <= |run| <= 32
    case Match(distance, length) => 1 <= distance <= 8192 && 3 <= length <= 264
  }

  predicate ValidTokens(ts: seq<Token>) {
    forall i :: 0 <= i < |ts| ==> ValidToken(ts[i])
  }

  /** The bytes of one instruction: literal run, short match (3..8 bytes) or long match. */
  function EncodeToken(t: Token): seq<byte>
    requires ValidToken(t)
  {
    match t
    case Literals(run) => [|run| - 1] + run
    case Match(distance, length) =>
      var high, low := (distance - 1) / 256, (distance - 1) % 256;
      if length <= 8 then [(length - 2) * 32 + high, low]
      else [7 * 32 + high, length - 9, low]
  }

  function Encode(ts: seq<Token>): seq<byte>
    requires ValidTokens(ts)
  {
    if ts == [] then [] else EncodeToken(ts[0]) + Encode(ts[1..])
  }

  /** Copy `length` bytes starting `distance` back, one at a time: the source may overlap what is being written. */
  function CopyBack(out: seq<byte>, distance: nat, length: nat): seq<byte>
    requires 1 <= distance <= |out|
    decreases length
  {
    if length == 0 then out else CopyBack(out + [out[|out| - distance]], distance, length - 1)
  }

  /** The output after the instructions in `s`; `None` if one is cut short or refers to before the output. */
  function Instructions(s: seq<byte>, out: seq<byte>): Option<seq<byte>>
    decreases |s|
  {
    if s == [] then Some(out)
    else
      var kind: nat, low: nat := s[0] / 32, s[0] % 32;
      if kind == 0 then
        if |s| < 2 + low then None else Instructions(s[2 + low..], out + s[1..2 + low])
      else
        var size := if kind == 7 then 3 else 2;
        if |s| < size then None
        else
          var distance: nat := low * 256 + s[size - 1] + 1;
          var length: nat := if kind == 7 then s[1] + 9 else kind + 2;
          if distance > |out| then None
          else Instructions(s[size..], CopyBack(out, distance, length))
  }

  /** A level-1 block carries the level in the top three bits of its first byte, as zero:
      its first instruction can only be a literal run. */
  function Decompress(s: seq<byte>): Option<seq<byte>> {
    if s == [] then Some([])
    else if s[0] / 32 != 0 then None
    else Instructions(s, [])
  }

  /** The effect of one token on the output. */
  function Execute(out: seq<byte>, t: Token): Option<seq<byte>> {
    if t.Literals? then Some(out + t.run)
    else if 1 <= t.distance <= |out| then Some(CopyBack(out, t.distance, t.length))
    else None
  }

  /** The output of a token list, without going through bytes. */
  function Expand(out: seq<byte>, ts: seq<Token>): Option<seq<byte>>
    decreases |ts|
  {
    if ts == [] then Some(out)
    else
      var next := Execute(out, ts[0]);
      if next.None? then None else Expand(next.value, ts[1..])
  }

  function TokenSize(t: Token): nat {
    if t.Literals? then 1 + |t.run| else if t.length <= 8 then 2 else 3
  }

  function Size(ts: seq<Token>): nat {
    if ts == [] then 0 else TokenSize(ts[0]) + Size(ts[1..])
  }

  lemma {:induction false} SizeIsEncodedLength(ts: seq<Token>)
    requires ValidTokens(ts)
    ensures |Encode(ts)| == Size(ts)
  {
    if ts != [] { SizeIsEncodedLength(ts[1..]); }
  }

  lemma {:induction false} SizeAppend(a: seq<Token>, b: seq<Token>)
    ensures Size(a + b) == Size(a) + Size(b)
  {
    if a == [] {
      assert a + b == b;
    } else {
      SizeAppend(a[1..], b);
      assert (a + b)[1..] == a[1..] + b;
    }
  }

  lemma {:induction false} ExpandAppend(out: seq<byte>, a: seq<Token>, b: seq<Token>)
    requires Expand(out, a).Some?
    ensures Expand(out, a + b) == Expand(Expand(out, a).value, b)
    decreases |a|
  {
    if a == [] {
      assert a + b == b;
    } else {
      assert (a + b)[1..] == a[1..] + b;
      ExpandAppend(Execute(out, a[0]).value, a[1..], b);
    }
  }

  lemma ShortStep(kind: nat, high: nat, low: byte, rest: seq<byte>, out: seq<byte>)
    requires 1 <= kind <= 6 && high < 32
    ensures Instructions([kind * 32 + high, low] + rest, out) ==
            var distance := high * 256 + low + 1;
            if distance > |out| then None else Instructions(rest, CopyBack(out, distance, kind + 2))
  {
    hide CopyBack;
    var s: seq<byte> := [kind * 32 + high, low] + rest;
    assert s[0] / 32 == kind && s[0] % 32 == high && s[1] == low && s[2..] == rest;
  }

  lemma LongStep(extra: byte, high: nat, low: byte, rest: seq<byte>, out: seq<byte>)
    requires high < 32
    ensures Instructions([7 * 32 + high, extra, low] + rest, out) ==
            var distance := high * 256 + low + 1;
            if distance > |out| then None else Instructions(rest, CopyBack(out, distance, extra + 9))
  {
    hide CopyBack;
    var s: seq<byte> := [7 * 32 + high, extra, low] + rest;
    assert s[0] / 32 == 7 && s[0] % 32 == high && s[1] == extra && s[2] == low && s[3..] == rest;
  }

  lemma MatchStepBytes(distance: nat, length: nat, rest: seq<byte>, out: seq<byte>)
    requires ValidToken(Match(distance, length))
    ensures Instructions(EncodeToken(Match(distance, length)) + rest, out) ==
            if distance > |out| then None else Instructions(rest, CopyBack(out, distance, length))
  {
    hide CopyBack, Instructions;
    var high: nat, low: nat := (distance - 1) / 256, (distance - 1) % 256;
    assert distance == high * 256 + low + 1;
    if length <= 8 { ShortStep(length - 2, high, low, rest, out); } else { LongStep(length - 9, high, low, rest, out); }
  }

  /** One encoded instruction at the front of a stream is executed as the token it came from. */
  lemma InstructionStep(t: Token, rest: seq<byte>, out: seq<byte>)
    requires ValidToken(t)
    ensures Instructions(EncodeToken(t) + rest, out) ==
            if Execute(out, t).None? then None else Instructions(rest, Execute(out, t).value)
  {
    hide CopyBack;
    var e := EncodeToken(t);
    var s := e + rest;
    assert s[|e|..] == rest;
    assert s[0] == e[0] && s[1] == e[1];
    match t
    case Literals(run) =>
      assert s[0] / 32 == 0 && s[0] % 32 == |run| - 1;
      assert s[1..|e|] == run;
    case Match(distance, length) => MatchStepBytes(distance, length, rest, out);
  }

  lemma {:induction false} InstructionsAreTokens(ts: seq<Token>, out: seq<byte>)
    requires ValidTokens(ts)
    ensures Instructions(Encode(ts), out) == Expand(out, ts)
    decreases |ts|
  {
    if ts != [] {
      InstructionStep(ts[0], Encode(ts[1..]), out);
      if Execute(out, ts[0]).Some? { InstructionsAreTokens(ts[1..], Execute(out, ts[0]).value); }
    }
  }

  /** The encoder and the decompressor agree on every token list that starts with a literal run. */
  lemma DecompressEncode(ts: seq<Token>)
    requires ValidTokens(ts)
    requires ts == [] || ts[0].Literals?
    ensures Decompress(Encode(ts)) == Expand([], ts)
  {
    InstructionsAreTokens(ts, []);
  }

  lemma {:induction false} CopyBackLength(out: seq<byte>, distance: nat, length: nat)
    requires 1 <= distance <= |out|
    ensures |CopyBack(out, distance, length)| == |out| + length
    decreases length
  {
    if length > 0 { CopyBackLength(out + [out[|out| - distance]], distance, length - 1); }
  }

  /** No instruction produces more than 88 output bytes per stream byte (a 3-byte long match gives 264). */
  lemma {:induction false} ExpansionLimit(s: seq<byte>, out: seq<byte>)
    requires Instructions(s, out).Some?
    ensures |Instructions(s, out).value| <= |out| + 88 * |s|
    decreases |s|
  {
    if s != [] {
      var kind: nat, low: nat := s[0] / 32, s[0] % 32;
      if kind == 0 {
        ExpansionLimit(s[2 + low..], out + s[1..2 + low]);
      } else {
        var size := if kind == 7 then 3 else 2;
        var distance: nat := low * 256 + s[size - 1] + 1;
        var length: nat := if kind == 7 then s[1] + 9 else kind + 2;
        CopyBackLength(out, distance, length);
        ExpansionLimit(s[size..], CopyBack(out, distance, length));
      }
    }
  }
}

/** What `flz_compress_len` measures: a greedy parse defined without a hash table. Positions
    already scanned are kept in a list, and `hashes` gives the hash of the word at each
    position; nothing here depends on which hash function is used. */
module FastLzParse {
  import opened Bytes
  import opened Ranges
  import opened FastLzFormat

  /** Scanning stops here: the last 13 bytes are always literals or the tail of a match. */
  function Limit(input: seq<byte>): nat {
    if |input| < 13 then 0 else |input| - 13
  }

  /** The latest remembered position whose word hashes to `h`; position 0 when there is none. */
  function Candidate(hashes: seq<nat>, seen: seq<nat>, h: nat): (r: nat)
    requires forall i :: 0 <= i < |seen| ==> seen[i] < |hashes|
    ensures r == 0 || r in seen
  {
    if seen == [] then 0
    else
      var last := seen[|seen| - 1];
      if hashes[last] == h then last else Candidate(hashes, seen[..|seen| - 1], h)
  }

  /** Positions that may be remembered while scanning at `idx`. */
  predicate Scanned(hashes: seq<nat>, seen: seq<nat>, idx: nat) {
    forall i :: 0 <= i < |seen| ==> seen[i] < idx && seen[i] < |hashes|
  }

  /** Whether the candidate for `idx` is near enough and starts with the same three bytes. */
  predicate Hit(input: seq<byte>, hashes: seq<nat>, seen: seq<nat>, idx: nat)
    requires |hashes| + 2 == |input| && 1 <= idx < |hashes| && Scanned(hashes, seen, idx)
  {
    var r := Candidate(hashes, seen, hashes[idx]);
    idx - r < 8192 && input[idx..idx + 3] == input[r..r + 3]
  }

  /** The first hit from `idx` on; one on the last position before the limit is dropped. */
  function Search(input: seq<byte>, hashes: seq<nat>, seen: seq<nat>, idx: nat): (found: Option<nat>)
    requires |hashes| + 2 >= |input| && 1 <= idx && Scanned(hashes, seen, idx)
    requires Limit(input) > 0 ==> |hashes| + 2 == |input|
    ensures found.Some? ==> idx <= found.value && found.value + 1 < Limit(input)
    decreases |input| - idx
  {
    if idx + 1 >= Limit(input) then None
    else if Hit(input, hashes, seen, idx) then Some(idx)
    else Search(input, hashes, seen + [idx], idx + 1)
  }

  /** How many bytes from `q` on, below `end`, repeat those from `p` on. */
  function Common(input: seq<byte>, p: nat, q: nat, end: nat): (k: nat)
    requires p < q <= end <= |input|
    ensures q + k <= end && forall i :: q <= i < q + k ==> input[i] == input[i - (q - p)]
    ensures q + k < end ==> input[p + k] != input[q + k]
    decreases end - q
  {
    if q < end && input[p] == input[q] then 1 + Common(input, p + 1, q + 1, end) else 0
  }

  /** The bytes a hit covers: the three of its word and all that follow in common, ending
      at least one byte before the comparison bound `Limit + 9`. */
  function MatchLength(input: seq<byte>, r: nat, hit: nat): (length: nat)
    requires r < hit < Limit(input)
    ensures 3 <= length && hit + length <= Limit(input) + 8
  {
    var common := Common(input, r + 3, hit + 3, Limit(input) + 9);
    if 3 + common < Limit(input) + 8 - hit then 3 + common else Limit(input) + 8 - hit
  }

  /** A literal run, cut into instructions of 32. */
  function LiteralTokens(run: seq<byte>): (ts: seq<Token>)
    ensures ValidTokens(ts)
    ensures forall i :: 0 <= i < |ts| ==> ts[i].Literals?
    ensures run != [] ==> ts != []
    decreases |run|
  {
    if run == [] then []
    else if |run| <= 32 then [Literals(run)]
    else [Literals(run[..32])] + LiteralTokens(run[32..])
  }

  /** A match of `length` bytes, cut into long matches of 262 and a rest of at most 264. */
  function MatchTokens(distance: nat, length: nat): (ts: seq<Token>)
    requires 1 <= distance <= 8192 && 3 <= length
    ensures ValidTokens(ts)
    decreases length
  {
    if length > 264 then [Match(distance, 262)] + MatchTokens(distance, length - 262)
    else [Match(distance, length)]
  }

  /** A found position is a hit, with everything scanned on the way to it remembered. */
  lemma {:induction false} SearchHits(input: seq<byte>, hashes: seq<nat>, seen: seq<nat>, idx: nat)
    requires |hashes| + 2 >= |input| && 1 <= idx && Scanned(hashes, seen, idx)
    requires Limit(input) > 0 ==> |hashes| + 2 == |input|
    ensures var found := Search(input, hashes, seen, idx);
            found.Some? ==>
              var seen' := seen + Range(idx, found.value);
              Scanned(hashes, seen', found.value) && Hit(input, hashes, seen', found.value)
              && Candidate(hashes, seen', hashes[found.value]) < found.value
    decreases |input| - idx
  {
    var found := Search(input, hashes, seen, idx);
    if found.Some? {
      if Hit(input, hashes, seen, idx) {
        assert seen + Range(idx, found.value) == seen;
      } else {
        SearchHits(input, hashes, seen + [idx], idx + 1);
        assert seen + Range(idx, found.value) == seen + [idx] + Range(idx + 1, found.value);
      }
    }
  }

  /** A hit repeats the input for as many bytes as its match covers. */
  lemma HitRepeats(input: seq<byte>, r: nat, hit: nat)
    requires r < hit < Limit(input) && input[hit..hit + 3] == input[r..r + 3]
    ensures forall k :: hit <= k < hit + MatchLength(input, r, hit) ==> input[k] == input[k - (hit - r)]
  {
    var common := Common(input, r + 3, hit + 3, Limit(input) + 9);
    forall k | hit <= k < hit + MatchLength(input, r, hit)
      ensures input[k] == input[k - (hit - r)]
    {
      if k < hit + 3 { assert input[hit..hit + 3][k - hit] == input[r..r + 3][k - hit]; }
    }
  }

  /** A parse in progress: `input[..anchor]` is done, scanning continues at `idx`. */
  datatype Scan = Scan(input: seq<byte>, hashes: seq<nat>, seen: seq<nat>, anchor: nat, idx: nat)

  predicate Valid(s: Scan) {
    && |s.hashes| + 2 >= |s.input| && (Limit(s.input) > 0 ==> |s.hashes| + 2 == |s.input|)
    && 1 <= s.idx && s.anchor <= s.idx && s.anchor <= |s.input| && Scanned(s.hashes, s.seen, s.idx)
  }

  /** The next match: `input[hit..next]` repeats `input[r..]`. */
  datatype Move = Move(hit: nat, r: nat, next: nat)

  predicate ValidMove(s: Scan, m: Move) {
    && s.idx <= m.hit < Limit(s.input) && m.hit + 3 <= m.next <= Limit(s.input) + 8
    && m.r < m.hit < m.r + 8192
    && forall k :: m.hit <= k < m.next ==> s.input[k] == s.input[k - (m.hit - m.r)]
  }

  lemma HitIsMove(s: Scan, r: nat, hit: nat)
    requires s.idx <= hit < Limit(s.input) && r < hit < r + 8192 && s.input[hit..hit + 3] == s.input[r..r + 3]
    ensures ValidMove(s, Move(hit, r, hit + MatchLength(s.input, r, hit)))
  {
    hide MatchLength;
    HitRepeats(s.input, r, hit);
  }

  function NextMove(s: Scan): (move: Option<Move>)
    requires Valid(s)
    ensures move.Some? ==> ValidMove(s, move.value)
  {
    var found := Search(s.input, s.hashes, s.seen, s.idx);
    if found.None? then None
    else
      SearchHits(s.input, s.hashes, s.seen, s.idx);
      var hit := found.value;
      var r := Candidate(s.hashes, s.seen + Range(s.idx, hit), s.hashes[hit]);
      HitIsMove(s, r, hit);
      Some(Move(hit, r, hit + MatchLength(s.input, r, hit)))
  }

  /** Every scanned position is remembered; of those inside a match only the first and the last two are. */
  function After(s: Scan, m: Move): (s': Scan)
    requires Valid(s) && ValidMove(s, m)
    ensures Valid(s') && s'.input == s.input && s'.hashes == s.hashes && s'.anchor == s'.idx == m.next
  {
    s.(seen := s.seen + Range(s.idx, m.hit) + [m.hit, m.next - 2, m.next - 1], anchor := m.next, idx := m.next)
  }

  /** The greedy parse of the rest of the input. */
  function Parse(s: Scan): (ts: seq<Token>)
    requires Valid(s)
    ensures ValidTokens(ts)
    decreases |s.input| - s.idx
  {
    var move := NextMove(s);
    if move.None? then LiteralTokens(s.input[s.anchor..])
    else
      var m := move.value;
      LiteralTokens(s.input[s.anchor..m.hit]) + (MatchTokens(m.hit - m.r, m.next - m.hit) + Parse(After(s, m)))
  }

  // ----- What the parse is worth -----

  lemma {:induction false} LiteralTokensExpand(out: seq<byte>, run: seq<byte>)
    ensures Expand(out, LiteralTokens(run)) == Some(out + run)
    decreases |run|
  {
    if run == [] {
      assert out + run == out;
    } else if |run| <= 32 {
      assert LiteralTokens(run)[1..] == [];
    } else {
      LiteralTokensExpand(out + run[..32], run[32..]);
      assert LiteralTokens(run)[1..] == LiteralTokens(run[32..]);
      assert out + run[..32] + run[32..] == out + run;
    }
  }

  /** Copying from `distance` back reproduces the input wherever the input repeats itself at that distance. */
  lemma {:induction false} CopyBackRepeats(input: seq<byte>, at: nat, distance: nat, length: nat)
    requires 1 <= distance <= at && at + length <= |input|
    requires forall k :: at <= k < at + length ==> input[k] == input[k - distance]
    ensures CopyBack(input[..at], distance, length) == input[..at + length]
    decreases length
  {
    if length > 0 {
      assert input[..at] + [input[at - distance]] == input[..at + 1];
      CopyBackRepeats(input, at + 1, distance, length - 1);
    }
  }

  /** One match token moves the output forward in the input. */
  lemma MatchStep(input: seq<byte>, at: nat, distance: nat, length: nat, rest: seq<Token>)
    requires 1 <= distance <= at && at + length <= |input|
    requires forall k :: at <= k < at + length ==> input[k] == input[k - distance]
    ensures Expand(input[..at], [Match(distance, length)] + rest) == Expand(input[..at + length], rest)
  {
    CopyBackRepeats(input, at, distance, length);
    assert ([Match(distance, length)] + rest)[1..] == rest;
  }

  lemma {:induction false} MatchTokensExpand(input: seq<byte>, at: nat, distance: nat, length: nat, rest: seq<Token>)
    requires 1 <= distance <= at && distance <= 8192 && 3 <= length && at + length <= |input|
    requires forall k :: at <= k < at + length ==> input[k] == input[k - distance]
    ensures Expand(input[..at], MatchTokens(distance, length) + rest) == Expand(input[..at + length], rest)
    decreases length
  {
    hide Expand;
    if length > 264 {
      var tail := MatchTokens(distance, length - 262);
      MatchStep(input, at, distance, 262, tail + rest);
      MatchTokensExpand(input, at + 262, distance, length - 262, rest);
      assert MatchTokens(distance, length) + rest == [Match(distance, 262)] + (tail + rest);
    } else {
      MatchStep(input, at, distance, length, rest);
    }
  }

  /** Literals up to a match and the match itself move the output to the end of the match. */
  lemma MoveExpands(s: Scan, m: Move, rest: seq<Token>)
    requires Valid(s) && ValidMove(s, m)
    ensures Expand(s.input[..s.anchor],
                   LiteralTokens(s.input[s.anchor..m.hit]) + (MatchTokens(m.hit - m.r, m.next - m.hit) + rest))
            == Expand(s.input[..m.next], rest)
  {
    hide Expand, LiteralTokens, MatchTokens;
    var literals, copies := LiteralTokens(s.input[s.anchor..m.hit]), MatchTokens(m.hit - m.r, m.next - m.hit);
    LiteralTokensExpand(s.input[..s.anchor], s.input[s.anchor..m.hit]);
    assert s.input[..s.anchor] + s.input[s.anchor..m.hit] == s.input[..m.hit];
    MatchTokensExpand(s.input, m.hit, m.hit - m.r, m.next - m.hit, rest);
    ExpandAppend(s.input[..s.anchor], literals, copies + rest);
  }

  /** The parse of the rest of the input, run after the bytes before it, gives the whole input. */
  lemma {:induction false} ParseExpands(s: Scan)
    requires Valid(s)
    ensures Expand(s.input[..s.anchor], Parse(s)) == Some(s.input)
    decreases |s.input| - s.idx
  {
    hide NextMove, After;
    var move := NextMove(s);
    if move.None? {
      LiteralTokensExpand(s.input[..s.anchor], s.input[s.anchor..]);
      assert s.input[..s.anchor] + s.input[s.anchor..] == s.input;
    } else {
      MoveExpands(s, move.value, Parse(After(s, move.value)));
      ParseExpands(After(s, move.value));
    }
  }

  function LiteralCost(length: nat): nat {
    length + (length + 31) / 32
  }

  lemma {:induction false} LiteralTokensCost(run: seq<byte>)
    ensures Size(LiteralTokens(run)) == LiteralCost(|run|)
    decreases |run|
  {
    if |run| > 32 {
      LiteralTokensCost(run[32..]);
      assert LiteralTokens(run)[1..] == LiteralTokens(run[32..]);
    } else if run != [] {
      assert LiteralTokens(run)[1..] == [];
    }
  }

  /** Long matches cost 3 bytes per 262 covered; the rest costs 2 or 3. */
  function MatchCost(length: nat): nat
    requires 3 <= length
  {
    3 * ((length - 3) / 262) + if (length - 3) % 262 >= 6 then 3 else 2
  }

  lemma {:induction false} MatchTokensCost(distance: nat, length: nat)
    requires 1 <= distance <= 8192 && 3 <= length
    ensures Size(MatchTokens(distance, length)) == MatchCost(length)
    decreases length
  {
    if length > 264 {
      MatchTokensCost(distance, length - 262);
      assert MatchTokens(distance, length)[1..] == MatchTokens(distance, length - 262);
    } else {
      assert MatchTokens(distance, length)[1..] == [];
    }
  }

  /** The encoded length of a parse. */
  function Cost(s: Scan): nat
    requires Valid(s)
  {
    Size(Parse(s))
  }

  lemma CostEnd(s: Scan)
    requires Valid(s) && NextMove(s).None?
    ensures Cost(s) == LiteralCost(|s.input| - s.anchor)
  {
    hide NextMove, After;
    LiteralTokensCost(s.input[s.anchor..]);
  }

  lemma CostMove(s: Scan, m: Move)
    requires Valid(s) && NextMove(s) == Some(m)
    ensures Cost(s) == LiteralCost(m.hit - s.anchor) + MatchCost(m.next - m.hit) + Cost(After(s, m))
  {
    hide NextMove, After;
    var literals, copies := LiteralTokens(s.input[s.anchor..m.hit]), MatchTokens(m.hit - m.r, m.next - m.hit);
    LiteralTokensCost(s.input[s.anchor..m.hit]);
    MatchTokensCost(m.hit - m.r, m.next - m.hit);
    SizeAppend(copies, Parse(After(s, m)));
    SizeAppend(literals, copies + Parse(After(s, m)));
  }

  lemma MatchPaysForLiterals(anchor: nat, hit: nat, next: nat)
    requires anchor <= hit && hit + 3 <= next
    ensures anchor + anchor / 32 + LiteralCost(hit - anchor) + MatchCost(next - hit) <= next + next / 32
  {
    var literals := hit - anchor;
    assert MatchCost(next - hit) <= next - hit - 1;
    assert (literals + 31) / 32 <= literals / 32 + 1;
    assert anchor / 32 + literals / 32 <= hit / 32 <= next / 32;
  }

  /** A match costs at least one byte less than it covers, which pays for the literal run before it. */
  lemma {:induction false} CostBound(s: Scan)
    requires Valid(s)
    ensures s.anchor + s.anchor / 32 + Cost(s) <= LiteralCost(|s.input|)
    decreases |s.input| - s.idx
  {
    hide NextMove, After, Parse, Cost;
    if NextMove(s).None? {
      CostEnd(s);
    } else {
      var m := NextMove(s).value;
      CostMove(s, m);
      MatchPaysForLiterals(s.anchor, m.hit, m.next);
      CostBound(After(s, m));
    }
  }
}

/** `flz_compress_len`: the same length, computed with a hash table over u32 positions. */
module FastLz {
  import opened Bytes
  import opened BigEndian
  import opened Ranges
  import opened FastLzFormat
  import opened FastLzParse

  /** The longest input whose literal-only encoding fits in a u32. */
  const MAX_INPUT: nat := 4_164_816_770

  function U24(input: seq<byte>, idx: nat): (word: u32)
    requires idx + 2 < |input|
  {
    (input[idx] as int) + (input[idx + 1] as int) * 256 + (input[idx + 2] as int) * 65536
  }

  /** `(v * 2654435769) >> 19`, truncated to 16 bits and masked to 13. */
  function Hash(v: u32): (h: nat)
    ensures h < 8192
  {
    ((v * 2654435769 / 524288) % 65536) % 8192
  }

  /** A word is its three bytes, the first the least significant. */
  lemma WordIsLittleEndian(input: seq<byte>, idx: nat)
    requires idx + 2 < |input|
    ensures U24(input, idx) == FromBytes([input[idx + 2], input[idx + 1], input[idx]])
  {
    var s := [input[idx + 2], input[idx + 1], input[idx]];
    assert s[..2] == [input[idx + 2], input[idx + 1]] && s[..2][..1] == [input[idx + 2]];
    assert FromBytes(s[..2][..1]) == input[idx + 2];
    assert FromBytes(s[..2]) == 256 * (input[idx + 2] as int) + input[idx + 1];
  }

  lemma LowBits(x: nat)
    ensures x == x / 8192 * 8192 + x % 65536 % 8192
  {
    assert x == 8 * (x / 65536) * 8192 + x % 65536;
  }

  lemma MiddleBits(product: nat)
    ensures product == product / 0x8_0000 / 8192 * 0x1_0000_0000
                       + product / 0x8_0000 % 65536 % 8192 * 0x8_0000 + product % 0x8_0000
  {
    var shifted := product / 0x8_0000;
    assert product == shifted * 0x8_0000 + product % 0x8_0000;
    LowBits(shifted);
  }

  /** The hash is bits 19 to 31 of the product with 2654435769. */
  lemma HashIsMiddleBits(v: u32) returns (high: nat, low: nat)
    ensures v * 2654435769 == high * 0x1_0000_0000 + Hash(v) * 0x8_0000 + low && low < 0x8_0000
  {
    var product: nat := v * 2654435769;
    high, low := product / 0x8_0000 / 8192, product % 0x8_0000;
    MiddleBits(product);
  }

  function Hashes(input: seq<byte>): (hashes: seq<nat>)
    ensures |hashes| == if |input| < 2 then 0 else |input| - 2
    ensures forall i :: 0 <= i < |hashes| ==> hashes[i] < 8192
  {
    seq(if |input| < 2 then 0 else |input| - 2, i requires 0 <= i && i + 2 < |input| => Hash(U24(input, i)))
  }

  function Start(input: seq<byte>): (s: Scan)
    ensures Valid(s)
  {
    Scan(input, Hashes(input), [], 0, 2)
  }

  lemma WordBytes(a: byte, b: byte, c: byte)
    ensures var w: int := (a as int) + (b as int) * 256 + (c as int) * 65536;
            a == w % 256 && b == w / 256 % 256 && c == w / 65536
  {
  }

  /** Comparing words is comparing three bytes. */
  lemma WordsAreSlices(input: seq<byte>, i: nat, j: nat)
    requires i + 2 < |input| && j + 2 < |input|
    ensures U24(input, i) == U24(input, j) <==> input[i..i + 3] == input[j..j + 3]
  {
    WordBytes(input[i], input[i + 1], input[i + 2]);
    WordBytes(input[j], input[j + 1], input[j + 2]);
    assert input[i..i + 3] == [input[i], input[i + 1], input[i + 2]];
    assert input[j..j + 3] == [input[j], input[j + 1], input[j + 2]];
  }

  function LiteralSize(r: u32, size: u32): (total: u32)
    requires size + LiteralCost(r) <= U32_MAX
    ensures total == size + LiteralCost(r)
  {
    var size: u32 := size + 0x21 * (r / 0x20);
    var r: u32 := r % 0x20;
    if r != 0 then size + r + 1 else size
  }

  function MatchSize(l: u32, size: u32): (total: u32)
    requires 1 <= l && size + MatchCost(l + 2) <= U32_MAX
    ensures total == size + MatchCost(l + 2)
  {
    var l: u32 := l - 1;
    var size: u32 := size + 3 * (l / 262);
    if l % 262 >= 6 then size + 3 else size + 2
  }

  /** Equal bytes and, if one stops the count before `r`, the first different byte too. */
  function CmpLength(input: seq<byte>, p: nat, q: nat, r: nat): nat
    requires p < q <= r <= |input|
  {
    var common := Common(input, p, q, r);
    if q + common < r then common + 1 else common
  }

  /** The count falls two short of what the match covers, whichever way it ended. */
  lemma CmpCovers(input: seq<byte>, r: nat, hit: nat)
    requires r < hit < Limit(input)
    ensures CmpLength(input, r + 3, hit + 3, Limit(input) + 9) + 2 == MatchLength(input, r, hit)
  {
  }

  method Cmp(input: seq<byte>, p: u32, q: u32, r: u32) returns (l: u32)
    requires p < q <= r <= |input|
    ensures l == CmpLength(input, p, q, r)
  {
    l := 0;
    var rest: u32 := r - q;
    while l < rest
      invariant rest == r - q ==> l <= rest && Common(input, p + l, q + l, r) + l == Common(input, p, q, r)
      invariant rest != r - q ==> rest == 0 && l == CmpLength(input, p, q, r)
    {
      if input[p + l] != input[q + l] {
        rest := 0;
      }
      l := l + 1;
    }
  }

  /** The table holds, for every hash, the latest remembered position. */
  ghost predicate Remembers(htab: array<u32>, hashes: seq<nat>, seen: seq<nat>)
    reads htab
  {
    htab.Length == 8192 && (forall i :: 0 <= i < |seen| ==> seen[i] < |hashes|)
    && forall h :: 0 <= h < 8192 ==> htab[h] == Candidate(hashes, seen, h)
  }

  lemma CandidatesAfter(hashes: seq<nat>, seen: seq<nat>, p: nat)
    requires forall i :: 0 <= i < |seen| ==> seen[i] < |hashes|
    requires p < |hashes|
    ensures forall h :: Candidate(hashes, seen + [p], h) == if hashes[p] == h then p else Candidate(hashes, seen, h)
  {
    assert (seen + [p])[..|seen|] == seen;
  }

  method SetNextHash(htab: array<u32>, input: seq<byte>, idx: u32, ghost seen: seq<nat>) returns (next: u32)
    requires idx + 2 < |input| <= MAX_INPUT
    requires Remembers(htab, Hashes(input), seen)
    modifies htab
    ensures next == idx + 1
    ensures Remembers(htab, Hashes(input), seen + [idx])
  {
    hide Candidate;
    htab[Hash(U24(input, idx))] := idx;
    next := idx + 1;
    CandidatesAfter(Hashes(input), seen, idx);
  }

  lemma SearchEnds(s: Scan, seen: seq<nat>, idx: nat)
    requires Valid(s) && Scanned(s.hashes, seen, idx) && s.idx <= idx && Limit(s.input) <= idx + 1
    ensures Search(s.input, s.hashes, seen, idx) == None
  {
  }

  /** Scanning one position either finds it or leaves the search where it was. */
  lemma SearchStep(s: Scan, seen: seq<nat>, idx: nat)
    requires Valid(s) && s.idx <= idx < Limit(s.input)
    requires Scanned(s.hashes, seen, idx) && seen == s.seen + Range(s.idx, idx)
    ensures seen + [idx] == s.seen + Range(s.idx, idx + 1)
    ensures if idx + 1 < Limit(s.input) && Hit(s.input, s.hashes, seen, idx)
            then Search(s.input, s.hashes, seen, idx) == Some(idx)
            else if idx + 1 < Limit(s.input)
            then Search(s.input, s.hashes, seen, idx) == Search(s.input, s.hashes, seen + [idx], idx + 1)
            else Search(s.input, s.hashes, seen, idx) == Search(s.input, s.hashes, seen + [idx], idx + 1) == None
  {
    assert Range(s.idx, idx + 1) == Range(s.idx, idx) + [idx];
  }

  lemma CandidateBefore(hashes: seq<nat>, seen: seq<nat>, idx: nat, h: nat)
    requires 1 <= idx && Scanned(hashes, seen, idx)
    ensures Candidate(hashes, seen, h) < idx
  {
    hide Candidate;
  }

  /** What the inner loop's test says about the search. */
  lemma ScanStep(s: Scan, seen: seq<nat>, idx: nat, r: nat)
    requires Valid(s) && s.hashes == Hashes(s.input) && s.idx <= idx < Limit(s.input)
    requires Scanned(s.hashes, seen, idx) && seen == s.seen + Range(s.idx, idx)
    requires r == Candidate(s.hashes, seen, s.hashes[idx])
    ensures r + 2 < |s.input| && Scanned(s.hashes, seen + [idx], idx + 1) &&
      seen + [idx] == s.seen + Range(s.idx, idx + 1)
    ensures if idx - r < 8192 && U24(s.input, idx) == U24(s.input, r)
            then Search(s.input, s.hashes, seen, idx) == (if idx + 1 < Limit(s.input) then Some(idx) else None)
            else Search(s.input, s.hashes, seen, idx) == Search(s.input, s.hashes, seen + [idx], idx + 1)
  {
    hide Candidate, Search, U24, Hash, Hashes;
    WordsAreSlices(s.input, idx, r);
    SearchStep(s, seen, idx);
  }

  /** Look the word at `idx` up and remember `idx` in its place. */
  method Exchange(htab: array<u32>, input: seq<byte>, idx: u32, ghost seen: seq<nat>) returns (word: u32, r: u32)
    requires idx + 2 < |input| <= MAX_INPUT
    requires Remembers(htab, Hashes(input), seen)
    modifies htab
    ensures word == U24(input, idx)
    ensures r == Candidate(Hashes(input), seen, Hashes(input)[idx])
    ensures Remembers(htab, Hashes(input), seen + [idx])
  {
    hide Candidate;
    word := U24(input, idx);
    var hash := Hash(word);
    r := htab[hash];
    htab[hash] := idx;
    CandidatesAfter(Hashes(input), seen, idx);
  }

  /** The inner loop: scan from `start` until a near enough repeat of a word or the limit.
      `idx` is one past the position it stopped at, except at the limit itself. */
  method ScanForMatch(htab: array<u32>, input: seq<byte>, start: u32, limit: u32, ghost s: Scan)
    returns (idx: u32, r: u32)
    requires |input| <= MAX_INPUT && limit == Limit(input)
    requires Valid(s) && s.input == input && s.hashes == Hashes(input) && s.idx == start < limit
    requires Remembers(htab, s.hashes, s.seen)
    modifies htab
    ensures idx >= limit ==> Search(input, s.hashes, s.seen, start) == None
    ensures idx < limit ==>
      start < idx && Search(input, s.hashes, s.seen, start) == Some(idx - 1)
      && Remembers(htab, s.hashes, s.seen + Range(start, idx - 1) + [idx - 1])
      && r == Candidate(s.hashes, s.seen + Range(start, idx - 1), s.hashes[idx - 1])
  {
    hide Candidate, Search, U24, Hash, Hashes, Remembers, Hit, Scanned;
    idx := start;
    ghost var seen: seq<nat> := s.seen;
    assert s.seen + Range(start, start) == s.seen;
    while true
      invariant start <= idx <= limit && Scanned(s.hashes, seen, idx) && seen == s.seen + Range(start, idx)
      invariant Remembers(htab, s.hashes, seen)
      invariant Search(input, s.hashes, seen, idx) == Search(input, s.hashes, s.seen, start)
      decreases limit - idx
    {
      var word;
      word, r := Exchange(htab, input, idx, seen);
      CandidateBefore(s.hashes, seen, idx, s.hashes[idx]);
      var distance: u32 := idx - r;
      if idx >= limit {
        SearchEnds(s, seen, idx);
        break;
      }
      idx := idx + 1;
      ScanStep(s, seen, idx - 1, r);
      if distance < 8192 && word == U24(input, r) { break; }
      seen := seen + [idx - 1];
    }
  }

  lemma NothingRemembered(htab: array<u32>, hashes: seq<nat>)
    requires htab.Length == 8192 && forall h :: 0 <= h < 8192 ==> htab[h] == 0
    ensures Remembers(htab, hashes, [])
  {
  }

  /** What the outer loop reads off a found position is the next move of the parse. */
  lemma MoveFound(s: Scan, hit: nat, r: nat)
    requires Valid(s) && Search(s.input, s.hashes, s.seen, s.idx) == Some(hit)
    requires Scanned(s.hashes, s.seen + Range(s.idx, hit), hit)
    requires r == Candidate(s.hashes, s.seen + Range(s.idx, hit), s.hashes[hit]) < hit
    ensures NextMove(s) == Some(Move(hit, r, hit + MatchLength(s.input, r, hit)))
    ensures ValidMove(s, NextMove(s).value)
  {
    hide Candidate, Search, MatchLength, ValidMove, Scanned;
    assert ValidMove(s, NextMove(s).value);
  }

  lemma NoMove(s: Scan)
    requires Valid(s) && Search(s.input, s.hashes, s.seen, s.idx) == None
    ensures NextMove(s) == None
  {
    hide Search;
  }

  lemma AfterMove(s: Scan, m: Move)
    requires Valid(s) && ValidMove(s, m)
    ensures After(s, m).seen == s.seen + Range(s.idx, m.hit) + [m.hit] + [m.next - 2] + [m.next - 1]
  {
    hide ValidMove;
    assert [m.hit, m.next - 2, m.next - 1] == [m.hit] + [m.next - 2] + [m.next - 1];
  }

  lemma NoLiterals()
    ensures LiteralCost(0) == 0
  {
  }

  lemma CostWithinU32(input: seq<byte>)
    requires |input| <= MAX_INPUT
    ensures Cost(Start(input)) <= LiteralCost(|input|) <= U32_MAX
  {
    CostBound(Start(input));
  }

  /** The rest of an outer iteration: literals up to the hit, the match, and its last two positions. */
  method TakeMatch(htab: array<u32>, input: seq<byte>, hit: u32, r: u32, limit: u32, anchor: u32, size: u32,
                   ghost s: Scan, ghost m: Move)
    returns (next: u32, total: u32)
    requires |input| <= MAX_INPUT && limit == Limit(input)
    requires Valid(s) && s.input == input && s.hashes == Hashes(input) && s.anchor == anchor
    requires s.idx <= hit && r < hit < limit && m == Move(hit, r, hit + MatchLength(input, r, hit))
    requires ValidMove(s, m) && NextMove(s) == Some(m)
    requires Remembers(htab, s.hashes, s.seen + Range(s.idx, hit) + [hit])
    requires size + Cost(s) <= U32_MAX
    modifies htab
    ensures next == m.next
    ensures Remembers(htab, s.hashes, After(s, m).seen)
    ensures total + Cost(After(s, m)) == size + Cost(s)
  {
    hide Candidate, Search, NextMove, Cost, Hashes, Scanned, Remembers, LiteralCost, MatchCost, After, MatchLength,
      CmpLength;
    CostMove(s, m);
    total := size;
    if hit > anchor {
      total := LiteralSize(hit - anchor, total);
    } else {
      NoLiterals();
    }
    var len := Cmp(input, r + 3, hit + 3, limit + 9);
    CmpCovers(input, r, hit);
    total := MatchSize(len, total);
    ghost var seen: seq<nat> := s.seen + Range(s.idx, hit) + [hit];
    next := SetNextHash(htab, input, hit + len, seen);
    next := SetNextHash(htab, input, next, seen + [next - 1]);
    AfterMove(s, m);
  }

  /** The estimate is the encoded length of the table-free parse. */
  method FlzCompressLen(input: seq<byte>) returns (length: u32)
    requires |input| <= MAX_INPUT
    ensures length == Cost(Start(input))
  {
    hide Candidate, Search, NextMove, Cost, Hashes, Common, Hit, Scanned, Remembers, LiteralCost, MatchCost, After;
    var idx: u32 := 2;
    var limit: u32 := if |input| < 13 then 0 else |input| - 13;
    var anchor: u32 := 0;
    var size: u32 := 0;
    var htab := new u32[8192](_ => 0);
    ghost var s := Start(input);
    CostWithinU32(input);
    NothingRemembered(htab, s.hashes);
    while idx < limit
      invariant Valid(s) && s.input == input && s.hashes == Hashes(input) && s.anchor == anchor && s.idx == idx
      invariant Remembers(htab, s.hashes, s.seen)
      invariant size + Cost(s) == Cost(Start(input))
      decreases |input| - idx
    {
      var r: u32;
      idx, r := ScanForMatch(htab, input, idx, limit, s);
      if idx >= limit { break; }
      idx := idx - 1;
      SearchHits(input, s.hashes, s.seen, s.idx);
      MoveFound(s, idx, r);
      ghost var m := NextMove(s).value;
      idx, size := TakeMatch(htab, input, idx, r, limit, anchor, size, s, m);
      s := After(s, m);
      anchor := idx;
    }
    if s.idx >= limit { SearchEnds(s, s.seen, s.idx); }
    NoMove(s);
    CostEnd(s);
    length := LiteralSize(|input| - anchor, size);
  }

  // ----- What the estimate means -----

  /** The parse of a non-empty input starts with a literal run: the byte carrying the block's level. */
  lemma FirstTokenIsLiteral(input: seq<byte>)
    ensures input == [] <==> Parse(Start(input)) == []
    ensures input != [] ==> Parse(Start(input))[0].Literals?
  {
    hide NextMove, After;
    var s := Start(input);
    var move := NextMove(s);
    if move.Some? { assert s.input[s.anchor..move.value.hit] != []; }
  }

  /** The estimate is the length of a real FastLZ level-1 block of the input. */
  lemma EstimateIsABlockOfTheInput(input: seq<byte>)
    ensures var block := Encode(Parse(Start(input)));
            |block| == Cost(Start(input)) && Decompress(block) == Some(input)
  {
    hide NextMove, After, Expand, Decompress;
    var s := Start(input);
    ParseExpands(s);
    assert s.input[..0] == [];
    SizeIsEncodedLength(Parse(s));
    FirstTokenIsLiteral(input);
    DecompressEncode(Parse(s));
  }

  /** A match longer than 264 bytes is cut into chunks of 262. */
  lemma {:induction false} MatchTokensShape(distance: nat, length: nat)
    requires 1 <= distance <= 8192 && 3 <= length
    ensures var ts := MatchTokens(distance, length);
            |ts| == 1 + (length - 3) / 262
            && forall i :: 0 <= i < |ts| ==>
                 ts[i] == Match(distance, if i + 1 < |ts| then 262 else length - 262 * (|ts| - 1))
    decreases length
  {
    if length > 264 {
      MatchTokensShape(distance, length - 262);
      assert (length - 3) / 262 == 1 + (length - 262 - 3) / 262;
    }
  }

  /** Matches reach at most 8191 back. */
  lemma {:induction false} MatchShapes(s: Scan)
    requires Valid(s)
    ensures forall i :: 0 <= i < |Parse(s)| && Parse(s)[i].Match? ==> Parse(s)[i].distance <= 8191
    decreases |s.input| - s.idx
  {
    hide NextMove, After;
    var move := NextMove(s);
    if move.Some? {
      var m := move.value;
      MatchShapes(After(s, m));
      MatchTokensShape(m.hit - m.r, m.next - m.hit);
    }
  }

  /** No input expands by more than one byte in 32, and none shrinks more than 88 times. */
  lemma EstimateBounds(input: seq<byte>)
    ensures Cost(Start(input)) <= |input| + (|input| + 31) / 32
    ensures |input| <= 88 * Cost(Start(input))
  {
    hide Parse;
    CostBound(Start(input));
    EstimateIsABlockOfTheInput(input);
    if input != [] { ExpansionLimit(Encode(Parse(Start(input))), []); }
  }

  /** The upper bound is reached: inputs of up to 15 bytes are never searched. */
  lemma ShortInputsAreLiterals(input: seq<byte>)
    requires |input| <= 15
    ensures Cost(Start(input)) == |input| + (|input| + 31) / 32
  {
    CostEnd(Start(input));
  }

  lemma {:induction false} NoCandidate(hashes: seq<nat>, seen: seq<nat>, h: nat)
    requires forall i :: 0 <= i < |seen| ==> seen[i] < |hashes| && hashes[seen[i]] != h
    ensures Candidate(hashes, seen, h) == 0
    decreases |seen|
  {
    if seen != [] { NoCandidate(hashes, seen[..|seen| - 1], h); }
  }

  predicate SameWord(input: seq<byte>, i: nat, j: nat)
    requires i + 2 < |input| && j + 2 < |input|
  {
    input[i..i + 3] == input[j..j + 3]
  }

  /** An input that repeats a block of different words, the first of which hashes like no other. */
  predicate RepeatsBlock(input: seq<byte>, period: nat) {
    && 3 <= period < 8192 && period + 1 < Limit(input)
    && (forall i :: period <= i < |input| ==> input[i] == input[i - period])
    && (forall i: nat, j: nat :: i < j < period ==> !SameWord(input, i, j))
    && (forall j :: 2 <= j < period ==> Hashes(input)[j] != Hashes(input)[0])
  }

  lemma SameWordSameHash(input: seq<byte>, i: nat, j: nat)
    requires i + 2 < |input| && j + 2 < |input| && input[i..i + 3] == input[j..j + 3]
    ensures Hashes(input)[i] == Hashes(input)[j]
  {
    hide Hash, U24;
    WordsAreSlices(input, i, j);
  }

  /** Nothing is found before the block comes round again. */
  lemma {:induction false} SearchFindsRepeat(input: seq<byte>, period: nat, idx: nat)
    requires RepeatsBlock(input, period) && 2 <= idx <= period
    ensures Search(input, Hashes(input), Range(2, idx), idx) == Some(period)
    decreases period - idx
  {
    hide Hashes, Candidate;
    var hashes, seen := Hashes(input), Range(2, idx);
    var r := Candidate(hashes, seen, hashes[idx]);
    if idx < period {
      assert r < idx && !SameWord(input, r, idx);
      assert Range(2, idx + 1) == seen + [idx];
      SearchFindsRepeat(input, period, idx + 1);
    } else {
      assert input[period..period + 3] == input[0..3];
      assert hashes[period] == hashes[0] by { SameWordSameHash(input, 0, period); }
      NoCandidate(hashes, seen, hashes[0]);
    }
  }

  lemma {:induction false} CommonToTheEnd(input: seq<byte>, p: nat, q: nat, end: nat)
    requires p < q <= end <= |input| && forall i :: q <= i < end ==> input[i] == input[i - (q - p)]
    ensures Common(input, p, q, end) == end - q
    decreases end - q
  {
    if q < end { CommonToTheEnd(input, p + 1, q + 1, end); }
  }

  /** Such an input costs one block of literals, one match for all that follows, and five literals at the end: the
      estimate finds repeats at any distance up to the window, not only runs. */
  lemma RepeatedBlockCost(input: seq<byte>, period: nat)
    requires RepeatsBlock(input, period)
    ensures Cost(Start(input)) == LiteralCost(period) + MatchCost(|input| - 5 - period) + LiteralCost(5)
  {
    hide Hashes, Candidate, Search, Cost, Common;
    var s, hashes := Start(input), Hashes(input);
    SearchFindsRepeat(input, period, 2);
    assert [] + Range(2, period) == Range(2, period);
    assert hashes[period] == hashes[0] by {
      assert input[period..period + 3] == input[0..3];
      SameWordSameHash(input, 0, period);
    }
    NoCandidate(hashes, Range(2, period), hashes[0]);
    CommonToTheEnd(input, 3, period + 3, Limit(input) + 9);
    var m := NextMove(s).value;
    assert m == Move(period, 0, |input| - 5);
    CostMove(s, m);
    var after := After(s, m);
    SearchEnds(after, after.seen, after.idx);
    NoMove(after);
    CostEnd(after);
  }

  /** Four bytes repeated eight times. */
  function Repeated(): seq<byte> {
    seq(32, i requires 0 <= i < 32 => i % 4)
  }

  lemma RepeatedWords()
    ensures U24(Repeated(), 0) == 0x020100 && U24(Repeated(), 2) == 0x000302 && U24(Repeated(), 3) == 0x010003
  {
  }

  lemma HashFrom(v: u32, high: nat, h: nat, low: nat)
    requires v * 2654435769 == high * 0x1_0000_0000 + h * 0x8_0000 + low && h < 8192 && low < 0x8_0000
    ensures Hash(v) == h
  {
    hide Hash;
    var high', low' := HashIsMiddleBits(v);
    var q, q' := high * 8192 + h, high' * 8192 + Hash(v);
    assert q == q' by { assert q * 0x8_0000 + low == q' * 0x8_0000 + low'; }
  }

  lemma SomeHashes()
    ensures Hash(0x020100) == 1373 && Hash(0x000302) == 7259 && Hash(0x010003) == 2699
  {
    hide Hash;
    HashFrom(0x020100, 81165, 1373, 243968);
    HashFrom(0x000302, 475, 7259, 269938);
    HashFrom(0x010003, 40505, 2699, 486699);
  }

  lemma RepeatedHashes()
    ensures Hashes(Repeated())[2] != Hashes(Repeated())[0] && Hashes(Repeated())[3] != Hashes(Repeated())[0]
  {
    hide Hash, U24;
    RepeatedWords();
    SomeHashes();
  }

  lemma RepeatedIsABlock()
    ensures RepeatsBlock(Repeated(), 4)
  {
    hide Hashes;
    var input := Repeated();
    RepeatedHashes();
    forall i: nat, j: nat | i < j < 4
      ensures !SameWord(input, i, j)
    {
      assert input[i..i + 3][0] == i && input[j..j + 3][0] == j;
    }
  }

  /** A repeat at distance 4 is found: 14 bytes, where an estimate blind to it would say 33. */
  lemma RepeatedCost()
    ensures Cost(Start(Repeated())) == 14 && LiteralCost(|Repeated()|) == 33
  {
    hide Cost, RepeatsBlock;
    RepeatedIsABlock();
    RepeatedBlockCost(Repeated(), 4);
  }

  /** `MAX_INPUT` is exactly where the worst-case estimate stops fitting in a u32. */
  lemma U32Boundary(n: nat)
    ensures LiteralCost(n) <= U32_MAX <==> n <= MAX_INPUT
  {
  }

  /** `estimate_tx_compressed_size` with its u64 saturations. */
  function SizeFromLength(fastlzSize: nat): (scaled: nat)
    ensures 100_000_000 <= scaled <= U64_MAX
  {
    var product := if fastlzSize * 836_500 > U64_MAX then U64_MAX else fastlzSize * 836_500;
    var intercepted := if product < 42_585_600 then 0 else product - 42_585_600;
    if intercepted < 100_000_000 then 100_000_000 else intercepted
  }

  method EstimateTxCompressedSize(input: seq<byte>) returns (scaled: nat)
    requires |input| <= MAX_INPUT
    ensures scaled == SizeFromLength(Cost(Start(input))) <= U64_MAX
    ensures 100_000_000 <= scaled <= 100_000_000 + 836_500 * (|input| + (|input| + 31) / 32)
  {
    var length := FlzCompressLen(input);
    EstimateBounds(input);
    hide Cost;
    scaled := SizeFromLength(length);
  }

  /** The saturating steps never saturate upwards: the estimate is the Fjord linear model, floored at 100 bytes. */
  lemma EstimateIsFjordFormula(fastlzSize: nat)
    requires fastlzSize <= U32_MAX
    ensures SizeFromLength(fastlzSize) ==
            if 836_500 * fastlzSize - 42_585_600 >= 100_000_000 then 836_500 * fastlzSize - 42_585_600 else 100_000_000
  {
  }
}
