/** Splitting a long text into messages of bounded length. */
module MessageSplit {
  import opened Text

  /** Where the first chunk of an overlong text ends: at the last newline that fits, if it is not the first character. */
  function CutPoint(text: string, limit: nat): (cut: nat)
    requires 1 <= limit < |text|
    ensures 1 <= cut <= limit
    ensures text[cut] == '\n' || cut == limit
    ensures forall i | 1 <= i < limit && text[i] == '\n' :: i <= cut && text[cut] == '\n'
  {
    var newline := RFind(text, '\n', limit);
    if newline <= 0 then limit else newline
  }

  /** The chunks of `text`, one cut at a time. */
  function Chunks(text: string, limit: nat): seq<string>
    requires limit >= 1
    decreases |text|
  {
    if text == "" then []
    else if |text| <= limit then [text]
    else
      var cut := CutPoint(text, limit);
      [TrimRight(text[..cut])] + Chunks(TrimLeft(text[cut..]), limit)
  }

  lemma ChunksAfterCut(done: seq<string>, text: string, limit: nat)
    requires 1 <= limit < |text|
    ensures var cut := CutPoint(text, limit);
      done + Chunks(text, limit) == done + [TrimRight(text[..cut])] + Chunks(TrimLeft(text[cut..]), limit)
  {
  }

  method SplitMessage(text: string, limit: nat) returns (chunks: seq<string>)
    requires limit >= 1
    ensures chunks == Chunks(text, limit)
  {
    if text == "" {
      return [];
    }
    chunks := [];
    var remaining := text;
    while |remaining| > limit
      invariant chunks + Chunks(remaining, limit) == Chunks(text, limit)
      decreases |remaining|
    {
      var splitAt := RFind(remaining, '\n', limit);
      if splitAt <= 0 {
        splitAt := limit;
      }
      ChunksAfterCut(chunks, remaining, limit);
      chunks := chunks + [TrimRight(remaining[..splitAt])];
      remaining := TrimLeft(remaining[splitAt..]);
    }
    if remaining != "" {
      chunks := chunks + [remaining];
    }
  }

  predicate AllSpace(s: string) {
    forall c | c in s :: IsSpace(c)
  }

  /** chunks[0] + gaps[0] + chunks[1] + gaps[1] + ... */
  function Interleave(chunks: seq<string>, gaps: seq<string>): string
    requires |chunks| == |gaps|
  {
    if chunks == [] then "" else chunks[0] + gaps[0] + Interleave(chunks[1..], gaps[1..])
  }

  lemma {:induction false} ChunksFit(text: string, limit: nat)
    requires limit >= 1
    ensures forall c | c in Chunks(text, limit) :: |c| <= limit
    decreases |text|
  {
    if |text| > limit {
      ChunksFit(TrimLeft(text[CutPoint(text, limit)..]), limit);
    }
  }

  /** The text is its chunks in order, separated by whitespace only. */
  lemma {:induction false} ChunksCoverText(text: string, limit: nat) returns (gaps: seq<string>)
    requires limit >= 1
    ensures |gaps| == |Chunks(text, limit)|
    ensures forall g | g in gaps :: AllSpace(g)
    ensures text == Interleave(Chunks(text, limit), gaps)
    decreases |text|
  {
    if text == "" {
      gaps := [];
    } else if |text| <= limit {
      gaps := [""];
      assert Interleave([text], [""]) == text + "" + Interleave([], []);
    } else {
      var cut := CutPoint(text, limit);
      var rest := TrimLeft(text[cut..]);
      var gap := CutGap(text, cut);
      var later := ChunksCoverText(rest, limit);
      gaps := [gap] + later;
      assert gaps[1..] == later;
      assert Chunks(text, limit) == [TrimRight(text[..cut])] + Chunks(rest, limit);
      assert Chunks(text, limit)[1..] == Chunks(rest, limit);
    }
  }

  /** What one cut drops. */
  lemma CutGap(text: string, cut: nat) returns (gap: string)
    requires cut <= |text|
    ensures AllSpace(gap)
    ensures text == TrimRight(text[..cut]) + gap + TrimLeft(text[cut..])
  {
    TrimRightIsPrefix(text[..cut]);
    TrimLeftIsSuffix(text[cut..]);
    var left, right := TrimRight(text[..cut]), TrimLeft(text[cut..]);
    gap := text[..cut][|left|..] + text[cut..][..|text| - cut - |right|];
    assert gap == text[|left|..|text| - |right|];
  }

  lemma {:induction false} TrimRightKeepsText(s: string)
    requires s != "" && !IsSpace(s[0])
    ensures TrimRight(s) != ""
  {
    if IsSpace(s[|s| - 1]) {
      TrimRightKeepsText(s[..|s| - 1]);
    }
  }

  /** Only the first chunk can be empty. */
  lemma {:induction false} LaterChunksAreNotEmpty(text: string, limit: nat)
    requires limit >= 1
    ensures forall i | 1 <= i < |Chunks(text, limit)| :: Chunks(text, limit)[i] != ""
    ensures text != "" && !IsSpace(text[0]) ==> Chunks(text, limit) != [] && Chunks(text, limit)[0] != ""
    decreases |text|
  {
    if |text| > limit {
      var cut := CutPoint(text, limit);
      var rest := TrimLeft(text[cut..]);
      LaterChunksAreNotEmpty(rest, limit);
      if !IsSpace(text[0]) {
        TrimRightKeepsText(text[..cut]);
      }
    }
  }

  function NonSpace(s: string): string {
    if s == "" then "" else (if IsSpace(s[0]) then "" else [s[0]]) + NonSpace(s[1..])
  }

  function Concat(chunks: seq<string>): string {
    if chunks == [] then "" else chunks[0] + Concat(chunks[1..])
  }

  lemma {:induction false} NonSpaceOfConcat(a: string, b: string)
    ensures NonSpace(a + b) == NonSpace(a) + NonSpace(b)
  {
    if a == "" {
      assert a + b == b;
    } else {
      assert (a + b)[1..] == a[1..] + b;
      NonSpaceOfConcat(a[1..], b);
    }
  }

  lemma {:induction false} NonSpaceOfSpace(g: string)
    requires AllSpace(g)
    ensures NonSpace(g) == ""
  {
    if g != "" {
      assert g[0] in g;
      assert forall c | c in g[1..] :: c in g;
      NonSpaceOfSpace(g[1..]);
    }
  }

  lemma {:induction false} InterleaveKeepsNonSpace(chunks: seq<string>, gaps: seq<string>)
    requires |chunks| == |gaps| && forall g | g in gaps :: AllSpace(g)
    ensures NonSpace(Interleave(chunks, gaps)) == NonSpace(Concat(chunks))
  {
    if chunks != [] {
      var rest := Interleave(chunks[1..], gaps[1..]);
      NonSpaceOfConcat(chunks[0] + gaps[0], rest);
      NonSpaceOfConcat(chunks[0], gaps[0]);
      NonSpaceOfSpace(gaps[0]);
      NonSpaceOfConcat(chunks[0], Concat(chunks[1..]));
      InterleaveKeepsNonSpace(chunks[1..], gaps[1..]);
    }
  }

  /** Splitting loses, adds and reorders nothing but whitespace. */
  lemma SplittingKeepsContent(text: string, limit: nat)
    requires limit >= 1
    ensures NonSpace(Concat(Chunks(text, limit))) == NonSpace(text)
  {
    var gaps := ChunksCoverText(text, limit);
    InterleaveKeepsNonSpace(Chunks(text, limit), gaps);
  }

  // --- where the cuts are ---

  /** The last newline before the limit, not at the very start; without one the limit itself. */
  predicate IsCut(text: string, limit: nat, cut: nat) {
    && 1 <= cut <= limit < |text|
    && (if cut < limit then text[cut] == '\n' && forall i | cut < i < limit :: text[i] != '\n'
        else forall i | 1 <= i < limit :: text[i] != '\n')
  }

  /** A text that fits is one chunk; from any other the first chunk is cut off, and the cut is closed by stripping. */
  lemma FirstChunkIsCut(text: string, limit: nat) returns (cut: nat)
    requires limit >= 1
    ensures |text| <= limit ==> Chunks(text, limit) == if text == "" then [] else [text]
    ensures |text| > limit ==>
      IsCut(text, limit, cut) && Chunks(text, limit) == [TrimRight(text[..cut])] + Chunks(TrimLeft(text[cut..]), limit)
  {
    cut := if |text| > limit then CutPoint(text, limit) else 0;
  }

  predicate EndsVisibly(s: string) {
    s == "" || !IsSpace(s[|s| - 1])
  }

  predicate StartsVisibly(s: string) {
    s == "" || !IsSpace(s[0])
  }

  lemma {:induction false} TrimRightKeepsStart(s: string)
    requires StartsVisibly(s)
    ensures StartsVisibly(TrimRight(s))
  {
    if s != "" && IsSpace(s[|s| - 1]) {
      TrimRightKeepsStart(s[..|s| - 1]);
    }
  }

  /** No chunk but the last ends with whitespace, and none but the first starts with it. */
  lemma {:induction false} ChunksAreTrimmed(text: string, limit: nat)
    requires limit >= 1
    ensures var chunks := Chunks(text, limit);
      && (forall i | 0 <= i < |chunks| - 1 :: EndsVisibly(chunks[i]))
      && (forall i | 1 <= i < |chunks| :: StartsVisibly(chunks[i]))
      && (StartsVisibly(text) && chunks != [] ==> StartsVisibly(chunks[0]))
    decreases |text|
  {
    if |text| > limit {
      var cut := CutPoint(text, limit);
      ChunksAreTrimmed(TrimLeft(text[cut..]), limit);
      if StartsVisibly(text) { TrimRightKeepsStart(text[..cut]); }
    }
  }
}
