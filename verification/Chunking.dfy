/** Splitting a long text into chunks that a chat platform accepts. */
module Chunking {
  import opened Text

  predicate Paragraph(s: string, i: nat) {
    i + 1 < |s| && s[i] == '\n' && s[i + 1] == '\n'
  }

  predicate Newline(s: string, i: nat) {
    i < |s| && s[i] == '\n'
  }

  predicate SentenceEnd(s: string, i: nat) {
    i + 1 < |s| && s[i] in ".!?" && s[i + 1] == ' '
  }

  predicate Space(s: string, i: nat) {
    i < |s| && s[i] == ' '
  }

  /** The last of the first `n` positions that `hit`s, or -1. */
  function Last(hit: (string, nat) -> bool, s: string, n: nat): (r: int)
    ensures -1 <= r < n && (r >= 0 ==> hit(s, r))
    ensures forall i | r < i < n :: i < 0 || !hit(s, i)
  {
    if n == 0 then -1 else if hit(s, n - 1) then n - 1 else Last(hit, s, n - 1)
  }

  /** Just past the space after the last sentence, or -1. */
  function SentenceBoundary(s: string): (r: int) {
    var i := Last(SentenceEnd, s, |s|);
    if i >= 0 then i + 2 else -1
  }

  /** Where to cut a segment: at a paragraph, else a newline, else a sentence, else a space,
      provided that is beyond the first quarter; else at the very end. */
  function SplitIndex(segment: string): (k: int)
    ensures |segment| > 0 ==> |segment| / 4 < k <= |segment|
  {
    var quarter := |segment| / 4;
    var paragraph := Last(Paragraph, segment, |segment|);
    var newline := Last(Newline, segment, |segment|);
    var space := Last(Space, segment, |segment|);
    if paragraph > quarter then paragraph + 1
    else if newline > quarter then newline + 1
    else if SentenceBoundary(segment) > quarter then SentenceBoundary(segment)
    else if space > quarter then space
    else |segment|
  }

  /** How many newlines `s` starts with, counted from `n`. */
  function NewlinesFrom(s: string, n: nat): (k: nat)
    requires n <= |s|
    ensures n <= k <= |s| && (forall i | n <= i < k :: s[i] == '\n') && (k < |s| ==> s[k] != '\n')
    decreases |s| - n
  {
    if n < |s| && s[n] == '\n' then NewlinesFrom(s, n + 1) else n
  }

  /** `s.lstrip("\n")` */
  function StripNewlines(s: string): string {
    s[NewlinesFrom(s, 0)..]
  }

  /** What is left to send after a cut at `k`. */
  function Rest(remaining: string, k: nat): (rest: string)
    requires 0 < k <= |remaining|
    ensures |rest| <= |remaining| - k
  {
    StripNewlines(remaining[k..])
  }

  function NonEmpty(chunk: string): seq<string> {
    if chunk != "" then [chunk] else []
  }

  function Chunks(remaining: string, maxLen: nat): seq<string>
    requires maxLen >= 1
    decreases |remaining|
  {
    if remaining == "" then []
    else if |remaining| <= maxLen then [remaining]
    else
      var k := SplitIndex(remaining[..maxLen]);
      NonEmpty(RStrip(remaining[..k])) + Chunks(Rest(remaining, k), maxLen)
  }

  // ------------------------------------------------------------------------- methods

  method LastSentenceBoundary(text: string) returns (best: int)
    ensures best == SentenceBoundary(text)
  {
    best := -1;
    for i := 0 to |text|
      invariant best == if Last(SentenceEnd, text, i) >= 0 then Last(SentenceEnd, text, i) + 2 else -1
    {
      if text[i] in ".!?" && i + 1 < |text| && text[i + 1] == ' ' {
        best := i + 2;
      }
    }
  }

  method FindSplit(segment: string) returns (split: int)
    ensures split == SplitIndex(segment)
  {
    var quarter := |segment| / 4;
    split := Last(Paragraph, segment, |segment|);
    if split > quarter {
      return split + 1; // the second newline starts the next chunk
    }
    var newline := Last(Newline, segment, |segment|);
    if newline > quarter {
      return newline + 1;
    }
    var sentence := LastSentenceBoundary(segment);
    if sentence > quarter {
      return sentence;
    }
    var space := Last(Space, segment, |segment|);
    split := if space > quarter then space else |segment|;
  }

  /** A limit of 0 is accepted where the loop ends: on texts of newlines (`ZeroLimit`). */
  method ChunkMessage(text: string, maxLen: nat) returns (chunks: seq<string>)
    requires maxLen >= 1 || Newlines(text, 0, |text|)
    ensures chunks == if text == "" then [""] else if maxLen == 0 then [] else Chunks(text, maxLen)
  {
    if |text| <= maxLen {
      return [text];
    }
    chunks := [];
    var remaining := text;
    if maxLen >= 1 {
      OntoAppends([], text, maxLen);
    }
    while remaining != ""
      invariant maxLen >= 1 ==> Onto(chunks, remaining, maxLen) == Onto([], text, maxLen)
      invariant maxLen == 0 ==> chunks == [] && Newlines(remaining, 0, |remaining|)
      decreases |remaining|
    {
      if |remaining| <= maxLen {
        chunks := chunks + [remaining];
        break;
      }
      if maxLen == 0 {
        ZeroLimit(remaining);
      }
      var split := FindSplit(remaining[..maxLen]);
      var chunk := RStrip(remaining[..split]);
      if chunk != "" {
        chunks := chunks + [chunk];
      }
      remaining := StripNewlines(remaining[split..]);
    }
  }

  /** `Chunks` with what was cut already. */
  function Onto(chunks: seq<string>, remaining: string, maxLen: nat): seq<string>
    requires maxLen >= 1
    decreases |remaining|
  {
    if remaining == "" then chunks
    else if |remaining| <= maxLen then chunks + [remaining]
    else
      var k := SplitIndex(remaining[..maxLen]);
      var chunk := RStrip(remaining[..k]);
      Onto(if chunk != "" then chunks + [chunk] else chunks, Rest(remaining, k), maxLen)
  }

  lemma {:induction false} OntoAppends(chunks: seq<string>, remaining: string, maxLen: nat)
    requires maxLen >= 1
    ensures Onto(chunks, remaining, maxLen) == chunks + Chunks(remaining, maxLen)
    decreases |remaining|
  {
    if |remaining| > maxLen {
      var k := SplitIndex(remaining[..maxLen]);
      var chunk, rest := RStrip(remaining[..k]), Rest(remaining, k);
      OntoAppends(if chunk != "" then chunks + [chunk] else chunks, rest, maxLen);
      Regroup(chunks, NonEmpty(chunk), Chunks(rest, maxLen));
      assert chunks + [] == chunks;
    }
  }

  lemma Regroup<T>(a: seq<T>, b: seq<T>, c: seq<T>)
    ensures a + (b + c) == (a + b) + c
  {
  }

  // ------------------------------------------------------------------------ theorems

  predicate IsLast(hit: (string, nat) -> bool, s: string, i: int) {
    i >= 0 && hit(s, i) && forall j | i < j < |s| :: !hit(s, j)
  }

  predicate Beyond(hit: (string, nat) -> bool, s: string, from: int) {
    exists i | 0 <= i < |s| :: from < i && hit(s, i)
  }

  /** The cut is at the best kind of boundary there is beyond the first quarter, and at the last
      of that kind. */
  lemma CutsAtTheBestBoundary(s: string)
    requires s != ""
    ensures var k, quarter := SplitIndex(s), |s| / 4;
      if Beyond(Paragraph, s, quarter) then IsLast(Paragraph, s, k - 1)
      else if Beyond(Newline, s, quarter) then IsLast(Newline, s, k - 1)
      else if Beyond(SentenceEnd, s, quarter - 2) then IsLast(SentenceEnd, s, k - 2)
      else if Beyond(Space, s, quarter) then IsLast(Space, s, k)
      else k == |s|
  {
  }

  /** What one cut of a text beyond the limit yields: a chunk that starts where the text does and
      lacks only the white space before the cut, unless it is nothing else; and the chunks of what
      follows the cut and the newlines there. A text within the limit is one chunk, as it is. */
  lemma EachCut(remaining: string, maxLen: nat) returns (cut: nat, kept: nat, next: nat)
    requires 1 <= maxLen && remaining != ""
    ensures |remaining| <= maxLen ==> Chunks(remaining, maxLen) == [remaining]
    ensures |remaining| > maxLen ==>
              && cut == SplitIndex(remaining[..maxLen]) && kept <= cut <= next <= |remaining|
              && AllSpace(remaining[kept..cut]) && (kept > 0 ==> !IsSpace(remaining[kept - 1]))
              && Newlines(remaining, cut, next) && (next < |remaining| ==> remaining[next] != '\n')
              && Chunks(remaining, maxLen)
                 == (if kept > 0 then [remaining[..kept]] else []) + Chunks(remaining[next..], maxLen)
  {
    cut, kept, next := 0, 0, 0;
    if |remaining| > maxLen {
      cut := SplitIndex(remaining[..maxLen]);
      var piece, tail := remaining[..cut], remaining[cut..];
      kept := KeptLength(piece, cut);
      next := cut + NewlinesFrom(tail, 0);
      assert piece[..kept] == remaining[..kept];
      assert tail[next - cut..] == remaining[next..];
      assert forall i | cut <= i < next :: remaining[i] == tail[i - cut];
      assert next < |remaining| ==> remaining[next] == tail[next - cut];
    }
  }

  lemma {:induction false} ChunksFit(remaining: string, maxLen: nat)
    requires maxLen >= 1
    ensures forall c | c in Chunks(remaining, maxLen) :: 0 < |c| <= maxLen
    decreases |remaining|
  {
    if |remaining| > maxLen {
      ChunksFit(Rest(remaining, SplitIndex(remaining[..maxLen])), maxLen);
    }
  }

  lemma CutConsumes(remaining: string, maxLen: nat) returns (rest: string)
    requires 1 <= maxLen < |remaining|
    ensures |rest| + maxLen / 4 + 1 <= |remaining|
    ensures |Chunks(rest, maxLen)| <= |Chunks(remaining, maxLen)| <= |Chunks(rest, maxLen)| + 1
    ensures rest == "" ==> |Chunks(remaining, maxLen)| <= 1
  {
    rest := Rest(remaining, SplitIndex(remaining[..maxLen]));
  }

  /** `n` pieces fit into `len` characters if all but the last take at least `step`. */
  predicate Fits(n: nat, step: nat, len: int) {
    if n <= 1 then len > 0 else Fits(n - 1, step, len - step)
  }

  /** `n` chunks of a text of `len` characters, when all but the last take at least `step`. */
  predicate Few(n: nat, step: nat, len: int) {
    (n - 1) * step < len
  }

  lemma {:induction false} FitsProduct(n: nat, step: nat, len: int)
    requires n >= 1 && Fits(n, step, len)
    ensures Few(n, step, len)
  {
    if n > 1 {
      FitsProduct(n - 1, step, len - step);
      assert (n - 1) * step == (n - 2) * step + step;
    }
  }

  lemma {:induction false} FitsMore(n: nat, step: nat, len: int, more: int)
    requires Fits(n, step, len) && len <= more
    ensures Fits(n, step, more)
  {
    if n > 1 {
      FitsMore(n - 1, step, len - step, more - step);
    }
  }

  lemma OneMore(count: nat, n: nat, step: nat, rest: nat, len: nat)
    requires Fits(n, step, rest) && rest + step <= len && 0 < len && n <= count <= n + 1
    ensures Fits(count, step, len)
  {
    FitsMore(n, step, rest, len);
    FitsMore(n, step, rest, len - step);
  }

  lemma {:induction false} ChunksTakeAQuarter(remaining: string, maxLen: nat, count: nat, step: nat)
    requires maxLen >= 1 && remaining != "" && step == maxLen / 4 + 1 && count == |Chunks(remaining, maxLen)|
    ensures count >= 1 ==> Fits(count, step, |remaining|)
    decreases |remaining|
  {
    if |remaining| > maxLen {
      var rest := CutConsumes(remaining, maxLen);
      if rest != "" {
        var n := |Chunks(rest, maxLen)|;
        ChunksTakeAQuarter(rest, maxLen, n, step);
        if n >= 1 {
          OneMore(count, n, step, |rest|, |remaining|);
        }
      }
    }
  }

  /** Every cut consumes more than a quarter of `maxLen`, which bounds the number of chunks. */
  lemma ChunksAreFew(text: string, maxLen: nat, count: nat, step: nat)
    requires maxLen >= 1 && text != "" && step == maxLen / 4 + 1 && count == |Chunks(text, maxLen)|
    ensures count >= 1 ==> Few(count, step, |text|)
  {
    ChunksTakeAQuarter(text, maxLen, count, step);
    if count >= 1 {
      FitsProduct(count, step, |text|);
    }
  }

  /** `gaps[0] + chunks[0] + gaps[1] + ... + chunks[n - 1] + gaps[n]` */
  function Weave(gaps: seq<string>, chunks: seq<string>): string
    requires |gaps| == |chunks| + 1
  {
    if chunks == [] then gaps[0] else gaps[0] + chunks[0] + Weave(gaps[1..], chunks[1..])
  }

  predicate Gaps(gaps: seq<string>) {
    forall i | 0 <= i < |gaps| :: AllSpace(gaps[i])
  }

  /** More white space in front. */
  lemma Widen(space: string, gaps: seq<string>, chunks: seq<string>) returns (wider: seq<string>)
    requires |gaps| == |chunks| + 1 && Gaps(gaps) && AllSpace(space)
    ensures |wider| == |chunks| + 1 && Gaps(wider) && Weave(wider, chunks) == space + Weave(gaps, chunks)
  {
    wider := [space + gaps[0]] + gaps[1..];
    if chunks != [] {
      var tail := Weave(gaps[1..], chunks[1..]);
      assert (space + gaps[0]) + chunks[0] + tail == space + (gaps[0] + chunks[0] + tail);
    }
  }

  /** A chunk, and white space between it and the rest. */
  lemma Prepend(chunk: string, gaps: seq<string>, chunks: seq<string>) returns (more: seq<string>)
    requires |gaps| == |chunks| + 1 && Gaps(gaps)
    ensures |more| == |chunks| + 2 && Gaps(more) && Weave(more, [chunk] + chunks) == chunk + Weave(gaps, chunks)
  {
    more := [""] + gaps;
    assert more[1..] == gaps && ([chunk] + chunks)[1..] == chunks;
    assert "" + chunk == chunk;
  }

  /** What a cut leaves out is white space. */
  lemma CutLosesSpace(remaining: string, k: nat) returns (space: string)
    requires 0 < k <= |remaining|
    ensures AllSpace(space) && remaining == RStrip(remaining[..k]) + space + Rest(remaining, k)
  {
    var kept, skipped := KeptLength(remaining[..k], k), NewlinesFrom(remaining[k..], 0);
    space := remaining[kept..k + skipped];
    assert remaining[..k][..kept] == remaining[..kept];
    assert forall i | k <= i < k + skipped :: remaining[i] == remaining[k..][i - k];
    assert forall i | kept <= i < k :: remaining[i] == remaining[..k][i];
    assert remaining[k..][skipped..] == remaining[k + skipped..];
  }

  /** Nothing but white space is lost: with white space between them, the chunks are the text. */
  lemma {:induction false} ChunksAreLossless(remaining: string, maxLen: nat) returns (gaps: seq<string>)
    requires maxLen >= 1
    ensures |gaps| == |Chunks(remaining, maxLen)| + 1 && Gaps(gaps)
            && Weave(gaps, Chunks(remaining, maxLen)) == remaining
    decreases |remaining|
  {
    if remaining == "" {
      gaps := [""];
    } else if |remaining| <= maxLen {
      gaps := ["", ""];
      assert gaps[1..] == [""] && [remaining][1..] == [];
      assert Weave(gaps, [remaining]) == "" + remaining + "";
    } else {
      var rest := Rest(remaining, SplitIndex(remaining[..maxLen]));
      gaps := ChunksAreLossless(rest, maxLen);
      var chunk := RStrip(remaining[..SplitIndex(remaining[..maxLen])]);
      var space := CutLosesSpace(remaining, SplitIndex(remaining[..maxLen]));
      gaps := CutIsLossless(chunk, space, rest, Chunks(rest, maxLen), gaps);
    }
  }

  lemma CutIsLossless(chunk: string, space: string, rest: string, later: seq<string>, tail: seq<string>)
      returns (gaps: seq<string>)
    requires AllSpace(space) && |tail| == |later| + 1 && Gaps(tail) && Weave(tail, later) == rest
    ensures |gaps| == |NonEmpty(chunk) + later| + 1 && Gaps(gaps)
    ensures Weave(gaps, NonEmpty(chunk) + later) == chunk + space + rest
  {
    gaps := Widen(space, tail, later);
    Regroup(chunk, space, rest);
    if chunk != "" {
      gaps := Prepend(chunk, gaps, later);
    } else {
      assert [] + later == later;
      assert "" + (space + rest) == space + rest;
    }
  }

  // ----------------------------------------------------------- texts without a chunk

  predicate Newlines(s: string, from: nat, to: nat)
    requires to <= |s|
  {
    forall i | from <= i < to :: s[i] == '\n'
  }

  /** Where the last cut of a text falls, or 0 if there is none. */
  function LastCut(text: string, maxLen: nat): (c: nat)
    requires maxLen >= 1
    ensures c <= |text|
    decreases |text|
  {
    if |text| <= maxLen then 0
    else
      var k := SplitIndex(text[..maxLen]);
      var rest := Rest(text, k);
      if |rest| <= maxLen then k else |text| - |rest| + LastCut(rest, maxLen)
  }

  /** What is left after a cut is the end of the text; between them are newlines only. */
  lemma RestIsSuffix(text: string, k: nat) returns (p: nat)
    requires 0 < k <= |text|
    ensures k <= p == |text| - |Rest(text, k)| && Rest(text, k) == text[p..] && Newlines(text, k, p)
    ensures p < |text| ==> text[p] != '\n'
  {
    p := k + NewlinesFrom(text[k..], 0);
    assert text[k..][p - k..] == text[p..];
    assert forall i | k <= i < p :: text[i] == text[k..][i - k];
    assert p < |text| ==> text[p] == text[k..][p - k];
  }

  lemma RStripEmpty(s: string)
    ensures RStrip(s) == "" <==> AllSpace(s)
  {
    var k := KeptLength(s, |s|);
    if k > 0 {
      assert !IsSpace(s[k - 1]);
    }
  }

  lemma SpacesAfter(text: string, k: nat, p: nat)
    requires k <= p <= |text| && Newlines(text, k, p)
    ensures AllSpace(text) <==> AllSpace(text[..k]) && AllSpace(text[p..])
  {
    if AllSpace(text[..k]) && AllSpace(text[p..]) {
      forall i | 0 <= i < |text| ensures IsSpace(text[i]) {
        if i < k {
          assert text[i] == text[..k][i];
        } else if i >= p {
          assert text[i] == text[p..][i - p];
        }
      }
    }
  }

  /** One cut, seen from the end: what is before it, what it skips, and what is left. */
  lemma FirstCut(text: string, maxLen: nat) returns (k: nat, p: nat, rest: string)
    requires 1 <= maxLen < |text|
    ensures 0 < k <= p <= |text| && Newlines(text, k, p) && (p < |text| ==> text[p] != '\n') && rest == text[p..]
    ensures Chunks(text, maxLen) == [] <==> AllSpace(text[..k]) && Chunks(rest, maxLen) == []
    ensures LastCut(text, maxLen) == if |rest| <= maxLen then k else p + LastCut(rest, maxLen)
  {
    k := SplitIndex(text[..maxLen]);
    p := RestIsSuffix(text, k);
    rest := text[p..];
    RStripEmpty(text[..k]);
  }

  lemma Shifted(text: string, p: nat, rest: string, from: nat)
    requires p <= |text| && rest == text[p..] && from <= |rest|
    ensures Newlines(rest, from, |rest|) <==> Newlines(text, p + from, |text|)
  {
    assert forall i | p <= i < |text| :: text[i] == rest[i - p];
  }

  /** What the end of a text says about the whole of it: `restGone` and `c` are about what is
      left after the first cut. */
  lemma GoneFromTheEnd(text: string, k: nat, p: nat, c: nat, gone: bool, restGone: bool, short: bool)
    requires 0 < k <= p <= |text| && Newlines(text, k, p) && (p < |text| ==> text[p] != '\n')
    requires gone <==> AllSpace(text[..k]) && restGone
    requires if p == |text| then restGone && c == k
             else if short then !restGone && c == k
             else p <= c <= |text| && (restGone <==> AllSpace(text[p..]) && Newlines(text, c, |text|))
    ensures gone <==> AllSpace(text) && Newlines(text, c, |text|)
  {
    SpacesAfter(text, k, p);
  }

  /** A text yields no chunk at all exactly when it is longer than the limit, all white space,
      and from its last cut on nothing but newlines. */
  lemma {:induction false} VanishesExactly(text: string, maxLen: nat)
    requires maxLen >= 1 && text != ""
    ensures Chunks(text, maxLen) == [] <==>
            |text| > maxLen && AllSpace(text) && Newlines(text, LastCut(text, maxLen), |text|)
    decreases |text|
  {
    if |text| > maxLen {
      var k, p, rest := FirstCut(text, maxLen);
      var restGone, c := Chunks(rest, maxLen) == [], k;
      if |rest| > maxLen {
        VanishesExactly(rest, maxLen);
        Shifted(text, p, rest, LastCut(rest, maxLen));
        c := p + LastCut(rest, maxLen);
      }
      GoneFromTheEnd(text, k, p, c, Chunks(text, maxLen) == [], restGone, |rest| <= maxLen);
    }
  }

  /** So such a text ends in a newline. */
  lemma VanishesOnlyIf(text: string, maxLen: nat)
    requires maxLen >= 1 && text != "" && Chunks(text, maxLen) == []
    ensures AllSpace(text) && text[|text| - 1] == '\n'
  {
    VanishesExactly(text, maxLen);
    LastCutInside(text, maxLen);
  }

  lemma {:induction false} LastCutInside(text: string, maxLen: nat)
    requires maxLen >= 1 && text != "" && Chunks(text, maxLen) == []
    ensures LastCut(text, maxLen) < |text|
    decreases |text|
  {
    var k := SplitIndex(text[..maxLen]);
    if |Rest(text, k)| > maxLen {
      LastCutInside(Rest(text, k), maxLen);
    }
  }

  /** Whatever ends in `maxLen` newlines has nothing else after its last cut. */
  lemma {:induction false} TailOfNewlines(text: string, maxLen: nat)
    requires 1 <= maxLen < |text| && Newlines(text, |text| - maxLen, |text|)
    ensures Newlines(text, LastCut(text, maxLen), |text|)
    decreases |text|
  {
    var k, p, rest := FirstCut(text, maxLen);
    if |rest| > maxLen {
      Shifted(text, p, rest, |rest| - maxLen);
      TailOfNewlines(rest, maxLen);
      Shifted(text, p, rest, LastCut(rest, maxLen));
    }
  }

  /** With at least `maxLen` newlines at its end a longer text yields no chunk iff it is all
      white space. */
  lemma ManyNewlines(text: string, maxLen: nat)
    requires 1 <= maxLen < |text| && Newlines(text, |text| - maxLen, |text|)
    ensures Chunks(text, maxLen) == [] <==> AllSpace(text)
  {
    VanishesExactly(text, maxLen);
    TailOfNewlines(text, maxLen);
  }

  /** So a text of newlines that is longer than the limit disappears altogether. */
  lemma NewlinesVanish(text: string, maxLen: nat)
    requires 1 <= maxLen < |text| && Newlines(text, 0, |text|)
    ensures Chunks(text, maxLen) == []
  {
    ManyNewlines(text, maxLen);
  }

  /** A limit of 0 makes no progress: one turn of the loop only strips leading newlines, a second
      one does nothing more, and so the loop ends for texts of newlines alone. */
  lemma ZeroLimit(remaining: string)
    ensures SplitIndex(remaining[..0]) == 0 && RStrip(remaining[..0]) == ""
    ensures var after := StripNewlines(remaining[0..]);
      && StripNewlines(after[0..]) == after
      && (after == "" <==> Newlines(remaining, 0, |remaining|))
  {
    assert remaining[0..] == remaining;
    var n := NewlinesFrom(remaining, 0);
    var after := remaining[n..];
    assert after[0..] == after;
    assert n < |remaining| ==> after[0] == remaining[n];
    assert NewlinesFrom(after, 0) == 0;
  }
}
