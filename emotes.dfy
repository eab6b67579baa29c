/**
 * Emote handling of the community-enriched adapter
 * (src/adapters/truffle/emotes.ts): image URLs per emote provider, splitting
 * a text run into words, substituting emote images for words, and decoding a
 * user's packed emote-ownership string (with its shared memo table).
 */
module Emotes {
  import opened Wrappers
  import opened Text
  import opened Types

  // ---------------------------------------------------------------- catalog

  /** `EmoteProvider`; `UnknownProvider` is any other number the catalog sends. */
  datatype EmoteProvider = Twitch | FFZ | BTTV | Custom | Spore | UnknownProvider(code: int)

  /** `Emote` as the catalog sends it. */
  datatype Emote = Emote(provider: EmoteProvider, id: string, name: string, ext: Option<string>, bitIndex: Option<int>)

  /** `getEmoteImage(emote, apiBase)` */
  function GetEmoteImage(emote: Emote, apiBase: string): (image: Option<string>)
    ensures image.None? <==> emote.provider.UnknownProvider?
                             || (emote.provider == Spore && (emote.ext.None? || emote.ext.value == ""))
    ensures image.Some? ==> image.value != ""
  {
    if emote.provider == Twitch then
      Some("https://static-cdn.jtvnw.net/emoticons/v2/" + emote.id + "/static/dark/1.0")
    else if emote.provider == FFZ then
      Some("https://cdn.frankerfacez.com/emote/" + emote.id + "/1")
    else if emote.provider == BTTV then
      Some("https://cdn.betterttv.net/emote/" + emote.id + "/1x")
    else if emote.provider == Spore && emote.ext.Some? && emote.ext.value != "" then
      Some("https://cdn.bio/ugc/collectible/" + emote.id + ".tiny." + emote.ext.value)
    else if emote.provider == Custom then
      Some(apiBase + "/emotes/" + emote.id)
    else
      None
  }

  // ------------------------------------------------------------ word split

  /** The class `[\s.,?!]` that word boundaries separate. */
  predicate IsSplitChar(c: char) {
    IsJsWhitespace(c) || c == '.' || c == ',' || c == '?' || c == '!'
  }

  /** The pieces of a text between the points where `cls` of neighbouring
      characters changes, left to right; the empty text is the single piece ''. */
  function Pieces(s: string, cls: char -> bool): (pieces: seq<string>)
    ensures |pieces| >= 1
    decreases |s|
  {
    if |s| <= 1 then [s]
    else Grow(Pieces(s[..|s| - 1], cls), s[|s| - 2], s[|s| - 1], cls)
  }

  /** The pieces after one more character `c` following `last`: the last
      piece grows when the class stays, otherwise `c` starts a new piece. */
  function Grow(w: seq<string>, last: char, c: char, cls: char -> bool): (r: seq<string>)
    requires |w| >= 1
    ensures |r| >= 1
  {
    if cls(last) == cls(c) then w[..|w| - 1] + [w[|w| - 1] + [c]] else w + [[c]]
  }

  /** The words of a text, as `string.split(/(?<=[\s.,?!])(?=[^\s.,?!])|(?<=[^\s.,?!])(?=[\s.,?!])/)`
      cuts it. */
  function Words(s: string): (words: seq<string>)
    ensures |words| >= 1
  {
    Pieces(s, IsSplitChar)
  }

  /** Every character of `piece` is in the class of its first character. */
  predicate Uniform(piece: string, cls: char -> bool) {
    forall j :: 0 <= j < |piece| ==> cls(piece[j]) == cls(piece[0])
  }

  /** Pieces `i` and `i + 1` are non-empty and meet at a class change. */
  predicate Boundary(words: seq<string>, i: int, cls: char -> bool)
    requires 0 <= i < |words| - 1
  {
    words[i] != [] && words[i + 1] != [] && cls(words[i][|words[i]| - 1]) != cls(words[i + 1][0])
  }

  /** Non-empty pieces of one class each, with a class change between neighbours. */
  predicate WellSplit(words: seq<string>, cls: char -> bool) {
    && (forall i :: 0 <= i < |words| ==> words[i] != [] && Uniform(words[i], cls))
    && (forall i :: 0 <= i < |words| - 1 ==> Boundary(words, i, cls))
  }

  /** The words concatenate back to the text, and a non-empty text is split
      into maximal runs of one class. */
  lemma WordsSpec(s: string)
    ensures Concat(Words(s)) == s
    ensures s == [] ==> Words(s) == [""]
    ensures s != [] ==> WellSplit(Words(s), IsSplitChar)
  {
    PiecesSpec(s, IsSplitChar);
  }

  lemma {:induction false} PiecesSpec(s: string, cls: char -> bool)
    ensures Concat(Pieces(s, cls)) == s
    ensures s == [] ==> Pieces(s, cls) == [""]
    ensures s != [] ==> WellSplit(Pieces(s, cls), cls)
    decreases |s|
  {
    if |s| == 1 {
      PiecesSingle(s, cls);
    } else if |s| > 1 {
      var p := s[..|s| - 1];
      PiecesSpec(p, cls);
      SplitLast(s);
      GrowSpec(Pieces(p, cls), p, s[|s| - 2], s[|s| - 1], cls);
    }
  }

  lemma PiecesSingle(s: string, cls: char -> bool)
    requires |s| == 1
    ensures Concat(Pieces(s, cls)) == s && WellSplit(Pieces(s, cls), cls)
  {
    var w := Pieces(s, cls);
    assert w == [s];
    assert w[..0] == [];
    assert Concat(w) == Concat([]) + s;
    UniformSingle(s, cls);
    WellSplitSingle(s, cls);
  }

  lemma UniformSingle(s: string, cls: char -> bool)
    requires |s| == 1
    ensures Uniform(s, cls)
  {
    forall j | 0 <= j < |s|
      ensures cls(s[j]) == cls(s[0])
    {
      assert j == 0;
    }
  }

  lemma WellSplitSingle(piece: string, cls: char -> bool)
    requires piece != [] && Uniform(piece, cls)
    ensures WellSplit([piece], cls)
  {
  }

  lemma SplitLast<T>(s: seq<T>)
    requires s != []
    ensures s[..|s| - 1] + [s[|s| - 1]] == s
  {
  }

  /** One more character keeps the pieces a well split of the text read. */
  lemma GrowSpec(w: seq<string>, p: string, last: char, c: char, cls: char -> bool)
    requires |w| >= 1 && WellSplit(w, cls) && Concat(w) == p && p != [] && last == p[|p| - 1]
    ensures Concat(Grow(w, last, c, cls)) == p + [c] && WellSplit(Grow(w, last, c, cls), cls)
  {
    if cls(p[|p| - 1]) == cls(c) {
      ExtendLastWord(w, p, c, cls);
    } else {
      StartNewWord(w, p, c, cls);
    }
  }

  /** The last character of a well-split text is the last of its last piece. */
  lemma LastOfLastWord(w: seq<string>, p: string, cls: char -> bool)
    requires |w| >= 1 && WellSplit(w, cls) && Concat(w) == p
    ensures p != [] && w[|w| - 1][|w[|w| - 1]| - 1] == p[|p| - 1]
  {
    assert Concat(w) == Concat(w[..|w| - 1]) + w[|w| - 1];
  }

  /** Appending a character of the last piece's class extends that piece. */
  lemma ExtendLastWord(w: seq<string>, p: string, c: char, cls: char -> bool)
    requires |w| >= 1 && WellSplit(w, cls) && Concat(w) == p
    requires cls(p[|p| - 1]) == cls(c)
    ensures var r := w[..|w| - 1] + [w[|w| - 1] + [c]];
      Concat(r) == p + [c] && WellSplit(r, cls)
  {
    LastOfLastWord(w, p, cls);
    var n := |w|;
    var init := w[..n - 1];
    var last := w[n - 1] + [c];
    assert w == init + [w[n - 1]];
    ConcatSnoc(init, w[n - 1]);
    ConcatSnoc(init, last);
    UniformSnoc(w[n - 1], c, cls);
    WellSplitPrefix(w, n - 1, cls);
    assert n >= 2 ==> init[n - 2] == w[n - 2] && Boundary(w, n - 2, cls) && last[0] == w[n - 1][0];
    WellSplitSnoc(init, last, cls);
  }

  /** Appending a character of the other class starts a new piece. */
  lemma StartNewWord(w: seq<string>, p: string, c: char, cls: char -> bool)
    requires |w| >= 1 && WellSplit(w, cls) && Concat(w) == p
    requires cls(p[|p| - 1]) != cls(c)
    ensures var r := w + [[c]];
      Concat(r) == p + [c] && WellSplit(r, cls)
  {
    LastOfLastWord(w, p, cls);
    ConcatSnoc(w, [c]);
    WellSplitSnoc(w, [c], cls);
  }

  lemma ConcatSnoc(w: seq<string>, x: string)
    ensures Concat(w + [x]) == Concat(w) + x
  {
    assert (w + [x])[..|w|] == w;
  }

  /** A character of the class of a uniform piece keeps it uniform. */
  lemma UniformSnoc(x: string, c: char, cls: char -> bool)
    requires x != [] && Uniform(x, cls) && cls(x[|x| - 1]) == cls(c)
    ensures Uniform(x + [c], cls)
  {
    var y := x + [c];
    forall j | 0 <= j < |y| ensures cls(y[j]) == cls(y[0]) {
      if j < |x| {
        assert y[j] == x[j];
      }
    }
  }

  lemma WellSplitPrefix(w: seq<string>, k: int, cls: char -> bool)
    requires WellSplit(w, cls) && 0 <= k <= |w|
    ensures WellSplit(w[..k], cls)
  {
    var v := w[..k];
    forall i | 0 <= i < |v| - 1 ensures Boundary(v, i, cls) {
      assert v[i] == w[i] && v[i + 1] == w[i + 1] && Boundary(w, i, cls);
    }
  }

  /** A non-empty uniform piece whose class differs from the end of the last
      piece can follow it. */
  lemma WellSplitSnoc(w: seq<string>, x: string, cls: char -> bool)
    requires WellSplit(w, cls) && x != [] && Uniform(x, cls)
    requires w != [] ==> w[|w| - 1] != [] && cls(w[|w| - 1][|w[|w| - 1]| - 1]) != cls(x[0])
    ensures WellSplit(w + [x], cls)
  {
    var r := w + [x];
    forall i | 0 <= i < |r| ensures r[i] != [] && Uniform(r[i], cls) {
      if i < |w| {
        assert r[i] == w[i];
      }
    }
    forall i | 0 <= i < |r| - 1 ensures Boundary(r, i, cls) {
      assert r[i] == w[i];
      if i < |w| - 1 {
        assert r[i + 1] == w[i + 1] && Boundary(w, i, cls);
      }
    }
  }

  /** The pieces of one more character of `s`: the last piece grows by that
      character, or a new piece starts with it. */
  lemma PiecesPrefixStep(s: string, i: int, cls: char -> bool)
    requires 0 <= i < |s| - 1
    ensures Pieces(s[..i + 2], cls) == Grow(Pieces(s[..i + 1], cls), s[i], s[i + 1], cls)
  {
    var next := s[..i + 2];
    assert next[..|next| - 1] == s[..i + 1];
    assert next[|next| - 2] == s[i] && next[|next| - 1] == s[i + 1];
  }

  lemma SplitStep(s: string, i: int, startOfMatch: int, result: seq<string>, cls: char -> bool)
    requires 0 <= startOfMatch <= i < |s| - 1
    requires result + [s[startOfMatch..i + 1]] == Pieces(s[..i + 1], cls)
    ensures cls(s[i]) != cls(s[i + 1]) ==>
              result + [s[startOfMatch..i + 1]] + [s[i + 1..i + 2]] == Pieces(s[..i + 2], cls)
    ensures cls(s[i]) == cls(s[i + 1]) ==>
              result + [s[startOfMatch..i + 2]] == Pieces(s[..i + 2], cls)
  {
    PiecesPrefixStep(s, i, cls);
    GrowPiece(result, s[startOfMatch..i + 1], s[i], s[i + 1], cls);
    SliceStep(s, startOfMatch, i);
  }

  lemma SliceStep(s: string, start: int, i: int)
    requires 0 <= start <= i < |s| - 1
    ensures s[i + 1..i + 2] == [s[i + 1]]
    ensures s[start..i + 1] + [s[i + 1]] == s[start..i + 2]
  {
  }

  /** Growing a split whose last piece is `piece`. */
  lemma GrowPiece(result: seq<string>, piece: string, last: char, c: char, cls: char -> bool)
    ensures cls(last) != cls(c) ==> Grow(result + [piece], last, c, cls) == result + [piece] + [[c]]
    ensures cls(last) == cls(c) ==> Grow(result + [piece], last, c, cls) == result + [piece + [c]]
  {
    var w := result + [piece];
    assert w[..|w| - 1] == result;
  }

  /** `splitWords(string)` */
  method SplitWords(s: string) returns (result: seq<string>)
    ensures result == Words(s)
  {
    result := [];
    var startOfMatch := 0;
    var i := 0;
    while i < |s| - 1
      invariant |s| == 0 ==> i == 0 && startOfMatch == 0 && result == []
      invariant |s| > 0 ==> 0 <= startOfMatch <= i < |s| && result + [s[startOfMatch..i + 1]] == Pieces(s[..i + 1], IsSplitChar)
    {
      SplitStep(s, i, startOfMatch, result, IsSplitChar);
      if IsSplitChar(s[i]) != IsSplitChar(s[i + 1]) {
        result := result + [s[startOfMatch..i + 1]];
        startOfMatch := i + 1;
      }
      i := i + 1;
    }
    result := result + [s[startOfMatch..]];
    if |s| > 0 {
      assert s[..i + 1] == s;
    }
  }

  // ------------------------------------------------------ emote substitution

  /** An element of a community-enriched message: plain text or `{emoji: url}`. */
  datatype Segment = Text(text: string) | Image(emoji: string)

  /** The glyph looked up as the emote `Kappa`. */
  const KappaGlyph: string := "\U{1F31D}"

  /** The catalog name a word is looked up under. */
  function LookupName(word: string): string {
    if word == KappaGlyph then "Kappa" else word
  }

  /** JavaScript truthiness of an optional string. */
  predicate Present(o: Option<string>) {
    o.Some? && o.value != ""
  }

  /** The state of the word loop of `addEmotesToMessage` within one text run:
      the pieces pushed so far, the text since the last emote
      (`text.substring(startOfText, index)`), the length walked (`index`), and
      whether an emote was seen. */
  datatype WordWalk = WordWalk(pushed: seq<Segment>, pending: string, index: nat, hasEmote: bool)

  /** The loop state after the given words. A word that resolves to an emote
      pushes the pending text (unless nothing was walked yet) and the image. */
  function WalkWords(words: seq<string>, getEmote: (string, string) -> Option<string>, userId: string): WordWalk {
    if words == [] then WordWalk([], "", 0, false)
    else
      var word := words[|words| - 1];
      WalkStep(WalkWords(words[..|words| - 1], getEmote, userId), word, getEmote(LookupName(word), userId))
  }

  /** One word of the walk, with `emote` what the catalog resolves it to. */
  function WalkStep(st: WordWalk, word: string, emote: Option<string>): WordWalk {
    if Present(emote) then
      WordWalk(st.pushed + (if st.index > 0 then [Text(st.pending)] else []) + [Image(emote.value)],
               "", st.index + |word|, true)
    else
      WordWalk(st.pushed, st.pending + word, st.index + |word|, st.hasEmote)
  }

  /** One more word: the walk over the first `j + 1` words is the walk over
      the first `j` followed by one step on `words[j]`. */
  lemma WalkWordsSnoc(words: seq<string>, j: int, getEmote: (string, string) -> Option<string>, userId: string)
    requires 0 <= j < |words|
    ensures var st := WalkWords(words[..j], getEmote, userId);
      var emote := getEmote(LookupName(words[j]), userId);
      WalkWords(words[..j + 1], getEmote, userId)
      == if Present(emote) then
           WordWalk(st.pushed + (if st.index > 0 then [Text(st.pending)] else []) + [Image(emote.value)],
                    "", st.index + |words[j]|, true)
         else WordWalk(st.pushed, st.pending + words[j], st.index + |words[j]|, st.hasEmote)
  {
    assert words[..j + 1][..j] == words[..j];
  }

  /** The segments a text run contributes: with an emote among its words, the
      text between emotes and the emote images in order; without one, the run
      text unchanged. */
  function TextRunSegments(text: string, getEmote: (string, string) -> Option<string>, userId: string): seq<Segment> {
    var st := WalkWords(Words(text), getEmote, userId);
    if st.hasEmote then st.pushed + [Text(st.pending)] else [Text(text)]
  }

  /** The segments an emoji run contributes: the Kappa glyph becomes the
      `Kappa` emote (or nothing), any other emoji its first thumbnail. */
  function EmojiRunSegments(emoji: Emoji, getEmote: (string, string) -> Option<string>, userId: string): seq<Segment> {
    if emoji.emojiId == KappaGlyph then
      var emote := getEmote("Kappa", userId);
      if Present(emote) then [Image(emote.value)] else []
    else
      [Image(if emoji.image.thumbnails == [] then "" else emoji.image.thumbnails[0].url)]
  }

  function RunSegments(run: Run, getEmote: (string, string) -> Option<string>, userId: string): seq<Segment> {
    match run
    case TextRun(text) => TextRunSegments(text, getEmote, userId)
    case EmojiRun(emoji) => EmojiRunSegments(emoji, getEmote, userId)
  }

  /** `addEmotesToMessage(message, getEmote)`, as a function of the runs. */
  function MessageSegments(runs: seq<Run>, getEmote: (string, string) -> Option<string>, userId: string): seq<Segment> {
    if runs == [] then []
    else MessageSegments(runs[..|runs| - 1], getEmote, userId) + RunSegments(runs[|runs| - 1], getEmote, userId)
  }

  lemma MessageSegmentsSnoc(runs: seq<Run>, r: int, getEmote: (string, string) -> Option<string>, userId: string)
    requires 0 <= r < |runs|
    ensures MessageSegments(runs[..r + 1], getEmote, userId)
            == MessageSegments(runs[..r], getEmote, userId) + RunSegments(runs[r], getEmote, userId)
  {
    assert runs[..r + 1][..r] == runs[..r];
  }

  /** The words that resolve to an emote, in order. */
  function MatchedWords(words: seq<string>, getEmote: (string, string) -> Option<string>, userId: string): seq<string> {
    if words == [] then []
    else
      MatchedWords(words[..|words| - 1], getEmote, userId)
      + (if Present(getEmote(LookupName(words[|words| - 1]), userId)) then [words[|words| - 1]] else [])
  }

  /** Read segments back as text, putting the matched words, in order, where
      the images stand. */
  function Interleave(segments: seq<Segment>, words: seq<string>): string {
    if segments == [] then ""
    else
      match segments[|segments| - 1]
      case Text(t) => Interleave(segments[..|segments| - 1], words) + t
      case Image(_) =>
        if words == [] then Interleave(segments[..|segments| - 1], [])
        else Interleave(segments[..|segments| - 1], words[..|words| - 1]) + words[|words| - 1]
  }

  /** The loop state is faithful to the text walked: the pushed pieces with
      the matched words put back, followed by the pending text, are the text;
      `index` is its length; an emote was seen exactly when a word matched,
      and before that nothing was pushed. */
  predicate Rebuilt(st: WordWalk, matched: seq<string>, text: string) {
    && st.index == |text| && |st.pending| <= st.index
    && Interleave(st.pushed, matched) + st.pending == text
    && (st.hasEmote <==> matched != [])
    && (!st.hasEmote ==> st.pushed == [])
  }

  lemma {:induction false} WalkWordsRebuilds(words: seq<string>, getEmote: (string, string) -> Option<string>, userId: string)
    ensures Rebuilt(WalkWords(words, getEmote, userId), MatchedWords(words, getEmote, userId), Concat(words))
  {
    if words != [] {
      var init := words[..|words| - 1];
      var word := words[|words| - 1];
      WalkWordsRebuilds(init, getEmote, userId);
      SplitLast(words);
      ConcatSnoc(init, word);
      var emote := getEmote(LookupName(word), userId);
      RebuiltStep(WalkWords(init, getEmote, userId), MatchedWords(init, getEmote, userId), Concat(init), word, emote);
    }
  }

  /** One step of the walk keeps it faithful; a matched word joins `matched`. */
  lemma RebuiltStep(st: WordWalk, m: seq<string>, text: string, word: string, emote: Option<string>)
    requires Rebuilt(st, m, text)
    ensures Rebuilt(WalkStep(st, word, emote), m + (if Present(emote) then [word] else []), text + word)
  {
    if Present(emote) {
      var pre: seq<Segment> := if st.index > 0 then [Text(st.pending)] else [];
      if st.index > 0 {
        InterleaveText(st.pushed, m, st.pending);
      } else {
        assert st.pushed + pre == st.pushed;
      }
      InterleaveImage(st.pushed + pre, m, word, emote.value);
    } else {
      assert m + [] == m;
      assert Interleave(st.pushed, m) + (st.pending + word) == (Interleave(st.pushed, m) + st.pending) + word;
    }
  }

  lemma InterleaveText(segs: seq<Segment>, m: seq<string>, t: string)
    ensures Interleave(segs + [Text(t)], m) == Interleave(segs, m) + t
  {
    assert (segs + [Text(t)])[..|segs|] == segs;
  }

  lemma InterleaveImage(segs: seq<Segment>, m: seq<string>, word: string, e: string)
    ensures Interleave(segs + [Image(e)], m + [word]) == Interleave(segs, m) + word
  {
    assert (segs + [Image(e)])[..|segs|] == segs && (m + [word])[..|m|] == m;
  }

  /** A text run with no word that resolves to an emote is pushed unchanged;
      otherwise putting each matched word back in place of its image rebuilds
      the run text exactly. */
  lemma TextRunRebuilds(text: string, getEmote: (string, string) -> Option<string>, userId: string)
    ensures var matched := MatchedWords(Words(text), getEmote, userId);
      && (matched == [] ==> TextRunSegments(text, getEmote, userId) == [Text(text)])
      && Interleave(TextRunSegments(text, getEmote, userId), matched) == text
  {
    var words := Words(text);
    var matched := MatchedWords(words, getEmote, userId);
    var st := WalkWords(words, getEmote, userId);
    WordsSpec(text);
    WalkWordsRebuilds(words, getEmote, userId);
    if st.hasEmote {
      var segs := st.pushed + [Text(st.pending)];
      assert segs[..|segs| - 1] == st.pushed;
    } else {
      assert [Text(text)][..0] == [];
    }
  }

  // --------------------------------------------------------- bit decoding

  function Pow2(b: nat): (p: nat)
    ensures p >= 1
  {
    if b == 0 then 1 else 2 * Pow2(b - 1)
  }

  /** Bit `b` of `v` in two's complement, which is what `(v & (1 << b)) !== 0`
      tests for the small values here (the floor division keeps negative
      values right). */
  predicate BitSet(v: int, b: nat) {
    (v / Pow2(b)) % 2 == 1
  }

  /** `characters[i]`: the value of the i-th character counted from the END of
      the string, `charCode − 35`. */
  function CharValue(s: string, i: nat): int
    requires i < |s|
  {
    s[|s| - 1 - i] as int - 35
  }

  /** The indices `i*6 + b` for the set bits `b < count` of `v`, ascending. */
  function BitsBelow(v: int, i: nat, count: nat): seq<int>
    requires count <= 6
  {
    if count == 0 then []
    else BitsBelow(v, i, count - 1) + (if BitSet(v, count - 1) then [i * 6 + count - 1] else [])
  }

  predicate StrictlyAscending(r: seq<int>) {
    forall k, l :: 0 <= k < l < |r| ==> r[k] < r[l]
  }

  predicate AllWithin(r: seq<int>, lo: int, hi: int) {
    forall k :: 0 <= k < |r| ==> lo <= r[k] < hi
  }

  lemma AscendingConcat(a: seq<int>, b: seq<int>, lo: int, mid: int, hi: int)
    requires StrictlyAscending(a) && StrictlyAscending(b)
    requires lo <= mid <= hi && AllWithin(a, lo, mid) && AllWithin(b, mid, hi)
    ensures StrictlyAscending(a + b) && AllWithin(a + b, lo, hi)
  {
    var r := a + b;
    forall k, l | 0 <= k < l < |r| ensures r[k] < r[l] {
      if l < |a| {
        assert r[k] == a[k] && r[l] == a[l];
      } else if k < |a| {
        assert r[k] == a[k] && r[l] == b[l - |a|];
      } else {
        assert r[k] == b[k - |a|] && r[l] == b[l - |a|];
      }
    }
    forall k | 0 <= k < |r| ensures lo <= r[k] < hi {
      if k < |a| { assert r[k] == a[k]; } else { assert r[k] == b[k - |a|]; }
    }
  }

  lemma {:induction false} BitsBelowSpec(v: int, i: nat, count: nat)
    requires count <= 6
    ensures StrictlyAscending(BitsBelow(v, i, count)) && AllWithin(BitsBelow(v, i, count), i * 6, i * 6 + count)
    ensures forall x :: x in BitsBelow(v, i, count) <==> i * 6 <= x < i * 6 + count && BitSet(v, x - i * 6)
  {
    if count > 0 {
      BitsBelowSpec(v, i, count - 1);
      var tail: seq<int> := if BitSet(v, count - 1) then [i * 6 + count - 1] else [];
      AscendingConcat(BitsBelow(v, i, count - 1), tail, i * 6, i * 6 + count - 1, i * 6 + count);
    }
  }

  /** What position `i` contributes; a zero value is skipped. */
  function PositionIndices(v: int, i: nat): seq<int> {
    if v == 0 then [] else BitsBelow(v, i, 6)
  }

  lemma ZeroHasNoBits()
    ensures forall b: nat :: !BitSet(0, b)
  {
  }

  /** The indices contributed by positions `0 .. n-1`. */
  function DecodedPrefix(s: string, n: nat): seq<int>
    requires n <= |s|
  {
    if n == 0 then [] else DecodedPrefix(s, n - 1) + PositionIndices(CharValue(s, n - 1), n - 1)
  }

  /** The cold decode of an ownership string. */
  function Decoded(s: string): seq<int> {
    DecodedPrefix(s, |s|)
  }

  lemma PositionIndicesSpec(v: int, i: nat)
    ensures StrictlyAscending(PositionIndices(v, i)) && AllWithin(PositionIndices(v, i), i * 6, i * 6 + 6)
    ensures forall x :: x in PositionIndices(v, i) <==> i * 6 <= x < i * 6 + 6 && BitSet(v, x - i * 6)
  {
    BitsBelowSpec(v, i, 6);
    if v == 0 {
      ZeroHasNoBits();
    }
  }

  lemma DivModSix(x: int, n: int)
    requires 6 * n <= x < 6 * n + 6
    ensures x / 6 == n && x % 6 == x - 6 * n
  {
  }

  lemma {:induction false} DecodedPrefixOrder(s: string, n: nat)
    requires n <= |s|
    ensures StrictlyAscending(DecodedPrefix(s, n)) && AllWithin(DecodedPrefix(s, n), 0, 6 * n)
  {
    if n > 0 {
      DecodedPrefixOrder(s, n - 1);
      var front, back := DecodedPrefix(s, n - 1), PositionIndices(CharValue(s, n - 1), n - 1);
      PositionIndicesSpec(CharValue(s, n - 1), n - 1);
      AscendingConcat(front, back, 0, 6 * (n - 1), 6 * n);
      assert DecodedPrefix(s, n) == front + back;
    }
  }

  lemma {:induction false} DecodedPrefixMembers(s: string, n: nat)
    requires n <= |s|
    ensures forall x :: x in DecodedPrefix(s, n) <==> 0 <= x < 6 * n && BitSet(CharValue(s, x / 6), x % 6)
  {
    if n > 0 {
      DecodedPrefixMembers(s, n - 1);
      var v := CharValue(s, n - 1);
      PositionIndicesSpec(v, n - 1);
      var front, back := DecodedPrefix(s, n - 1), PositionIndices(v, n - 1);
      assert DecodedPrefix(s, n) == front + back;
      forall x ensures x in front + back <==> 0 <= x < 6 * n && BitSet(CharValue(s, x / 6), x % 6) {
        MemberStep(s, n, x, x in front, x in back);
      }
    }
  }

  /** Index `x` is decoded from the first `n` positions exactly when it is
      decoded from the first `n - 1` or from position `n - 1`. */
  lemma MemberStep(s: string, n: nat, x: int, inFront: bool, inBack: bool)
    requires 1 <= n <= |s|
    requires inFront <==> 0 <= x < 6 * (n - 1) && BitSet(CharValue(s, x / 6), x % 6)
    requires inBack <==> 6 * (n - 1) <= x < 6 * (n - 1) + 6 && BitSet(CharValue(s, n - 1), x - (n - 1) * 6)
    ensures inFront || inBack <==> 0 <= x < 6 * n && BitSet(CharValue(s, x / 6), x % 6)
  {
    if 6 * (n - 1) <= x < 6 * n {
      DivModSix(x, n - 1);
    }
  }

  /** `decodeEmotes` without the cache: index `i*6 + b` is in the result
      exactly when bit `b < 6` of the value at reversed position `i` is set;
      the result is strictly ascending and lies in `[0, 6·|s|)`. */
  lemma DecodedSpec(s: string)
    ensures StrictlyAscending(Decoded(s)) && AllWithin(Decoded(s), 0, 6 * |s|)
    ensures forall x :: x in Decoded(s) <==>
              0 <= x < 6 * |s| && BitSet(s[|s| - 1 - x / 6] as int - 35, x % 6)
  {
    DecodedPrefixOrder(s, |s|);
    DecodedPrefixMembers(s, |s|);
  }

  /** The single character 'K' (code 75, value 40 = 0b101000) decodes to [3, 5]. */
  lemma DecodeK()
    ensures Decoded("K") == [3, 5]
  {
    assert CharValue("K", 0) == 40;
    assert Pow2(3) == 8 && Pow2(4) == 16 && Pow2(5) == 32;
    assert !BitSet(40, 0) && !BitSet(40, 1) && !BitSet(40, 2);
    assert BitSet(40, 3) && !BitSet(40, 4) && BitSet(40, 5);
    assert BitsBelow(40, 0, 6) == [3, 5];
  }

  /** The `get` closure of `decodeEmotes`: reverse the character values into
      an array, then collect the set bits position by position. */
  method DecodeEmotesCold(encodedEmotes: string) returns (finalArray: seq<int>)
    ensures finalArray == Decoded(encodedEmotes)
  {
    var n := |encodedEmotes|;
    var characters := new int[n];
    for i := 0 to n
      invariant forall j :: n - i <= j < n ==> characters[j] == CharValue(encodedEmotes, j)
    {
      characters[n - 1 - i] := encodedEmotes[i] as int - 35;
    }
    finalArray := [];
    for i := 0 to n
      invariant forall j :: 0 <= j < n ==> characters[j] == CharValue(encodedEmotes, j)
      invariant finalArray == DecodedPrefix(encodedEmotes, i)
    {
      if characters[i] != 0 {
        for bit := 0 to 6
          invariant finalArray == DecodedPrefix(encodedEmotes, i) + BitsBelow(characters[i], i, bit)
        {
          if (characters[i] / Pow2(bit)) % 2 == 1 {
            finalArray := finalArray + [i * 6 + bit];
          }
        }
      }
    }
  }

  /** The shared `emoteIndicesMap`: decoded indices per ownership string. */
  class EmoteIndexCache {
    var entries: map<string, seq<int>>

    constructor ()
      ensures entries == map[]
    {
      entries := map[];
    }

    /** Every memoised entry is the cold decode of its key. */
    ghost predicate Faithful()
      reads this
    {
      forall k :: k in entries ==> entries[k] == Decoded(k)
    }
  }

  /** `decodeEmotes(encodedEmotes, emoteIndicesMap, preferCache)`. With
      `preferCache` a memoised entry is returned as is, otherwise the decode is
      stored under the string; without it the table is neither read nor
      written. A faithful table stays faithful and the result is then always
      the cold decode. */
  method DecodeEmotes(encodedEmotes: string, cache: EmoteIndexCache, preferCache: bool) returns (indices: seq<int>)
    modifies cache
    ensures !preferCache ==> cache.entries == old(cache.entries) && indices == Decoded(encodedEmotes)
    ensures preferCache && encodedEmotes in old(cache.entries) ==>
              indices == old(cache.entries)[encodedEmotes] && cache.entries == old(cache.entries)
    ensures preferCache && encodedEmotes !in old(cache.entries) ==>
              indices == Decoded(encodedEmotes) && cache.entries == old(cache.entries)[encodedEmotes := indices]
    ensures old(cache.Faithful()) ==> cache.Faithful() && indices == Decoded(encodedEmotes)
  {
    if preferCache {
      if encodedEmotes in cache.entries {
        return cache.entries[encodedEmotes];
      }
      var decodedValue := DecodeEmotesCold(encodedEmotes);
      cache.entries := cache.entries[encodedEmotes := decodedValue];
      return decodedValue;
    } else {
      indices := DecodeEmotesCold(encodedEmotes);
    }
  }
}
