/** Markdown to Slack mrkdwn rewriting: `Slack.adjust_markdown_for_slack` in libs/slack.py.

    Fenced code blocks are found first, every other rewrite then works line by line on
    text in which each code block is hidden, and finally the code blocks are put back.
    The text being rewritten is a sequence of pieces: an ordinary character, or a code
    block that no rewrite looks inside. The code as written hides a block behind the
    placeholder text `__CODE_BLOCK_<i>__` (modelled by lifting that text to plain
    characters); the corrected variant keeps each block as one `Code` piece. */
module SlackMarkdown {
  import opened Wrappers
  import Text

  const Fence: string := "```"

  datatype Piece = Ch(c: char) | Code(block: string)

  const Newline: Piece := Ch('\n')
  const Star: Piece := Ch('*')
  const Hash: Piece := Ch('#')
  const Space: Piece := Ch(' ')
  const Bar: Piece := Ch('|')
  const Tick: Piece := Ch('`')
  const BulletMark: Piece := Ch('\U{2022}')

  /** Plain text as pieces, one character each. */
  function Lift(s: string): seq<Piece> {
    seq(|s|, i requires 0 <= i < |s| => Ch(s[i]))
  }

  function PieceText(p: Piece): string {
    match p
    case Ch(c) => [c]
    case Code(b) => b
  }

  /** The text the pieces stand for. */
  function Flatten(ps: seq<Piece>): string {
    if ps == [] then [] else PieceText(ps[0]) + Flatten(ps[1..])
  }

  /** The code blocks held by the pieces, in order. */
  function CodesOf(ps: seq<Piece>): seq<string> {
    if ps == [] then [] else (if ps[0].Code? then [ps[0].block] else []) + CodesOf(ps[1..])
  }

  lemma {:induction false} FlattenAppend(a: seq<Piece>, b: seq<Piece>)
    ensures Flatten(a + b) == Flatten(a) + Flatten(b)
    decreases |a|
  {
    if a == [] {
      assert a + b == b;
    } else {
      assert (a + b)[1..] == a[1..] + b;
      FlattenAppend(a[1..], b);
    }
  }

  lemma {:induction false} CodesAppend(a: seq<Piece>, b: seq<Piece>)
    ensures CodesOf(a + b) == CodesOf(a) + CodesOf(b)
    decreases |a|
  {
    if a == [] {
      assert a + b == b;
    } else {
      assert (a + b)[1..] == a[1..] + b;
      CodesAppend(a[1..], b);
    }
  }

  /** Lifting plain text is undone by flattening and introduces no code block. */
  lemma {:induction false} LiftFlatten(s: string)
    ensures Flatten(Lift(s)) == s
    ensures CodesOf(Lift(s)) == []
    decreases |s|
  {
    if s != [] {
      assert Lift(s)[1..] == Lift(s[1..]);
      LiftFlatten(s[1..]);
    }
  }

  lemma LiftAppend(a: string, b: string)
    ensures Lift(a + b) == Lift(a) + Lift(b)
  {
  }

  /** Every code block inside the pieces appears verbatim in their text. */
  lemma {:induction false} CodesAppearInFlatten(ps: seq<Piece>, b: string)
    requires b in CodesOf(ps)
    ensures Text.Contains(Flatten(ps), b)
    decreases |ps|
  {
    var f := Flatten(ps);
    var t := PieceText(ps[0]);
    assert f == t + Flatten(ps[1..]);
    if ps[0].Code? && b == ps[0].block {
      Text.ContainsPrefix(b, Flatten(ps[1..]));
    } else {
      assert b in CodesOf(ps[1..]);
      CodesAppearInFlatten(ps[1..], b);
      Text.ContainsAfter(t, Flatten(ps[1..]), b);
    }
  }

  // ---------------------------------------------------------------------------
  // Code blocks: re.findall(r'```.*?```', text, flags=re.DOTALL)
  // ---------------------------------------------------------------------------

  /** Where `re.findall` finds its next block: the leftmost fence, and the first fence
      starting after it. If the leftmost fence has no fence after it, no later fence has one
      either, so there is no further block. */
  function FirstBlock(s: string): (r: Option<(nat, nat)>)
    ensures r.Some? ==> r.value.0 + 3 <= r.value.1 && r.value.1 + 3 <= |s|
  {
    match Text.Find(s, Fence, 0)
    case None => None
    case Some(p) =>
      match Text.Find(s, Fence, p + 3)
      case None => None
      case Some(q) => Some((p, q))
  }

  /** The fenced blocks `re.findall` returns: the shortest text from a fence to the next
      fence, repeatedly, each search resuming after the previous block. */
  function FindBlocks(s: string): (bs: seq<string>)
    ensures 6 * |bs| <= |s|
    decreases |s|
  {
    match FirstBlock(s)
    case None => []
    case Some((p, q)) => [s[p..q + 3]] + FindBlocks(s[q + 3..])
  }

  /** The same scan as `FindBlocks`, cutting the text into characters and code blocks. */
  function Segment(s: string): seq<Piece>
    decreases |s|
  {
    match FirstBlock(s)
    case None => Lift(s)
    case Some((p, q)) => Lift(s[..p]) + [Code(s[p..q + 3])] + Segment(s[q + 3..])
  }

  /** Segmenting loses nothing: the pieces spell the original text. */
  lemma {:induction false} SegmentFlatten(s: string)
    ensures Flatten(Segment(s)) == s
    decreases |s|
  {
    if FirstBlock(s).None? {
      LiftFlatten(s);
    } else {
      var (p, q) := FirstBlock(s).value;
      SegmentFlatten(s[q + 3..]);
      SegmentStepFlatten(s, p, q);
    }
  }

  /** The block `FirstBlock` finds starts at the leftmost fence and ends with the first
      fence that starts after it. */
  lemma FirstBlockLeftmost(s: string, p: nat, q: nat)
    requires FirstBlock(s) == Some((p, q))
    ensures Text.OccursAt(s, Fence, p) && Text.OccursAt(s, Fence, q)
    ensures forall k: nat :: k < p ==> !Text.OccursAt(s, Fence, k)
    ensures forall k: nat :: p + 3 <= k < q ==> !Text.OccursAt(s, Fence, k)
  {
    match Text.Find(s, Fence, 0)
    case None =>
    case Some(p') =>
      match Text.Find(s, Fence, p' + 3)
      case None =>
      case Some(q') =>
  }

  /** Without a block, no two fences of the text are apart: the leftmost fence, if any,
      has no fence after it. */
  lemma NoBlockNoFences(s: string)
    requires FirstBlock(s).None?
    ensures forall p: nat, q: nat :: p + 3 <= q && Text.OccursAt(s, Fence, p) ==> !Text.OccursAt(s, Fence, q)
  {
    match Text.Find(s, Fence, 0)
    case None =>
    case Some(p) =>
      match Text.Find(s, Fence, p + 3)
      case None =>
      case Some(q) =>
  }

  /** A code block as `re.findall` returns it: a fence, text in which no fence starts, and
      a fence. */
  predicate FencedBlock(b: string) {
    |b| >= 6 && b[..3] == Fence && b[|b| - 3..] == Fence &&
    forall k: nat :: 3 <= k < |b| - 3 ==> !Text.OccursAt(b, Fence, k)
  }

  /** Every block `FindBlocks` returns is fenced and a piece of the text. */
  lemma {:induction false} FindBlocksFenced(s: string)
    ensures forall b :: b in FindBlocks(s) ==> BlockOf(s, b)
    decreases |s|
  {
    match FirstBlock(s)
    case None =>
      assert FindBlocks(s) == [];
    case Some((p, q)) =>
      var blk, n := FirstBlockSplit(s, p, q);
      FindBlocksFenced(s[n..]);
      LaterBlocks(s, n, FindBlocks(s[n..]));
      ConsBlocks(s, blk, FindBlocks(s[n..]), FindBlocks(s));
  }

  /** The first block of a text that has one, and where the scan resumes after it. */
  lemma FirstBlockSplit(s: string, p: nat, q: nat) returns (blk: string, n: nat)
    requires FirstBlock(s) == Some((p, q))
    ensures 0 < n <= |s| && FindBlocks(s) == [blk] + FindBlocks(s[n..]) && BlockOf(s, blk)
  {
    FirstBlockFenced(s, p, q);
    FindBlocksUnfold(s, p, q);
    blk, n := s[p..q + 3], q + 3;
  }

  lemma ConsBlocks(s: string, b0: string, bs: seq<string>, all: seq<string>)
    requires all == [b0] + bs && BlockOf(s, b0) && forall b :: b in bs ==> BlockOf(s, b)
    ensures forall b :: b in all ==> BlockOf(s, b)
  {
  }

  /** The blocks of a tail of the text are blocks of the text. */
  lemma LaterBlocks(s: string, n: nat, bs: seq<string>)
    requires n <= |s| && forall b :: b in bs ==> BlockOf(s[n..], b)
    ensures forall b :: b in bs ==> BlockOf(s, b)
  {
    forall b | b in bs ensures BlockOf(s, b) {
      LaterBlock(s, n, b);
    }
  }

  /** `b` is a block of the text `s`: fenced, and a piece of `s`. */
  predicate BlockOf(s: string, b: string) {
    FencedBlock(b) && Text.Contains(s, b)
  }

  lemma LaterBlock(s: string, n: nat, b: string)
    requires n <= |s| && BlockOf(s[n..], b)
    ensures BlockOf(s, b)
  {
    Text.ContainsAfter(s[..n], s[n..], b);
    assert s[..n] + s[n..] == s;
  }

  /** The first block of the text is fenced and a piece of the text. */
  lemma FirstBlockFenced(s: string, p: nat, q: nat)
    requires FirstBlock(s) == Some((p, q))
    ensures q + 3 <= |s| && BlockOf(s, s[p..q + 3])
  {
    FirstBlockLeftmost(s, p, q);
    FirstBlockBounds(s, p, q);
    var b := s[p..q + 3];
    assert Text.OccursAt(s, b, p);
    forall k: nat | 3 <= k < |b| - 3 ensures !Text.OccursAt(b, Fence, k) {
      assert !Text.OccursAt(s, Fence, p + k);
      SliceOfSlice(s, p, q + 3, k, k + 3);
    }
  }

  lemma SliceOfSlice<T>(s: seq<T>, i: nat, j: nat, k: nat, m: nat)
    requires i <= j <= |s| && k <= m <= j - i
    ensures s[i..j][k..m] == s[i + k..i + m]
  {
    forall t | 0 <= t < m - k ensures s[i..j][k..m][t] == s[i + k..i + m][t] {
      assert s[i..j][k..m][t] == s[i..j][k + t] == s[i + k + t];
    }
  }

  lemma FirstBlockBounds(s: string, p: nat, q: nat)
    requires FirstBlock(s) == Some((p, q))
    ensures p + 3 <= q && q + 3 <= |s|
  {
    var r := FirstBlock(s);
    assert r.value.0 + 3 <= r.value.1 && r.value.1 + 3 <= |s|;
  }

  /** One step of the scan: the text before the first block, the block, and the rest. */
  lemma SegmentUnfold(s: string, p: nat, q: nat)
    requires FirstBlock(s) == Some((p, q))
    ensures Segment(s) == Lift(s[..p]) + [Code(s[p..q + 3])] + Segment(s[q + 3..])
  {
  }

  lemma FindBlocksUnfold(s: string, p: nat, q: nat)
    requires FirstBlock(s) == Some((p, q))
    ensures FindBlocks(s) == [s[p..q + 3]] + FindBlocks(s[q + 3..])
  {
  }

  lemma SegmentStepFlatten(s: string, p: nat, q: nat)
    requires FirstBlock(s) == Some((p, q))
    requires Flatten(Segment(s[q + 3..])) == s[q + 3..]
    ensures Flatten(Segment(s)) == s
  {
    FirstBlockBounds(s, p, q);
    var front, code, rest := s[..p], s[p..q + 3], s[q + 3..];
    var seg := Segment(rest);
    SegmentUnfold(s, p, q);
    FlattenFrontCode(front, code, seg);
    assert Flatten(Segment(s)) == front + code + rest;
    SplitThree(s, p, q + 3);
  }

  lemma SplitThree(s: string, i: nat, j: nat)
    requires i <= j <= |s|
    ensures s[..i] + s[i..j] + s[j..] == s
  {
  }

  lemma FlattenFrontCode(front: string, code: string, rest: seq<Piece>)
    ensures Flatten(Lift(front) + [Code(code)] + rest) == front + code + Flatten(rest)
  {
    LiftFlatten(front);
    FlattenAppend(Lift(front), [Code(code)] + rest);
    assert ([Code(code)] + rest)[1..] == rest;
    assert Lift(front) + [Code(code)] + rest == Lift(front) + ([Code(code)] + rest);
  }

  lemma CodesFrontCode(front: string, code: string, rest: seq<Piece>)
    ensures CodesOf(Lift(front) + [Code(code)] + rest) == [code] + CodesOf(rest)
  {
    LiftFlatten(front);
    CodesAppend(Lift(front), [Code(code)] + rest);
    assert ([Code(code)] + rest)[1..] == rest;
    assert Lift(front) + [Code(code)] + rest == Lift(front) + ([Code(code)] + rest);
  }

  /** The code pieces of the segmentation are exactly the blocks `re.findall` finds. */
  lemma {:induction false} SegmentCodes(s: string)
    ensures CodesOf(Segment(s)) == FindBlocks(s)
    decreases |s|
  {
    if FirstBlock(s).None? {
      LiftFlatten(s);
    } else {
      var (p, q) := FirstBlock(s).value;
      SegmentCodes(s[q + 3..]);
      SegmentStepCodes(s, p, q);
    }
  }

  lemma SegmentStepCodes(s: string, p: nat, q: nat)
    requires FirstBlock(s) == Some((p, q))
    requires CodesOf(Segment(s[q + 3..])) == FindBlocks(s[q + 3..])
    ensures CodesOf(Segment(s)) == FindBlocks(s)
  {
    FirstBlockBounds(s, p, q);
    SegmentUnfold(s, p, q);
    FindBlocksUnfold(s, p, q);
    CodesFrontCode(s[..p], s[p..q + 3], Segment(s[q + 3..]));
  }

  /** Text without a backtick holds no fence and so no code block. */
  lemma NoBacktickNoBlocks(s: string)
    requires '`' !in s
    ensures FindBlocks(s) == []
    ensures Segment(s) == Lift(s)
  {
    assert s + [] == s;
    Text.NoStartInside(s, [], Fence);
    assert Text.Find(s, Fence, 0).None?;
    assert FirstBlock(s).None?;
  }

  // ---------------------------------------------------------------------------
  // Lines: re.MULTILINE makes ^ and $ match at every line, and . never matches a newline
  // ---------------------------------------------------------------------------

  /** `text.split("\n")` on pieces. */
  function SplitLines(ps: seq<Piece>): (ls: seq<seq<Piece>>)
    ensures |ls| > 0
    ensures forall i :: 0 <= i < |ls| ==> Newline !in ls[i]
    ensures forall i, p :: 0 <= i < |ls| && p in ls[i] ==> p in ps
    decreases |ps|
  {
    if ps == [] then [[]]
    else
      var rest := SplitLines(ps[1..]);
      assert forall p :: p in ps[1..] ==> p in ps;
      if ps[0] == Newline then [[]] + rest else [[ps[0]] + rest[0]] + rest[1..]
  }

  /** `"\n".join(ls)` on pieces. */
  function JoinLines(ls: seq<seq<Piece>>): seq<Piece>
    requires |ls| > 0
    decreases |ls|
  {
    if |ls| == 1 then ls[0] else ls[0] + [Newline] + JoinLines(ls[1..])
  }

  /** Splitting at newlines and joining again gives the text back. */
  lemma {:induction false} JoinSplit(ps: seq<Piece>)
    ensures JoinLines(SplitLines(ps)) == ps
    decreases |ps|
  {
    if ps != [] {
      var rest := SplitLines(ps[1..]);
      JoinSplit(ps[1..]);
      if ps[0] == Newline {
        assert SplitLines(ps)[1..] == rest;
      } else {
        var ls := SplitLines(ps);
        if |rest| > 1 {
          assert ls[1..] == rest[1..];
          assert JoinLines(rest) == rest[0] + [Newline] + JoinLines(rest[1..]);
        }
      }
      assert ps == [ps[0]] + ps[1..];
    }
  }

  /** A text without a newline is a single line. */
  lemma {:induction false} SplitSingleLine(ps: seq<Piece>)
    requires Newline !in ps
    ensures SplitLines(ps) == [ps]
    decreases |ps|
  {
    if ps != [] {
      SplitSingleLine(ps[1..]);
      assert ps == [ps[0]] + ps[1..];
    }
  }

  /** Applies a line rewrite to every line, as a MULTILINE `re.sub` anchored at ^ and $. */
  function MapLines(ps: seq<Piece>, f: seq<Piece> -> seq<Piece>): seq<Piece> {
    var ls := SplitLines(ps);
    JoinLines(seq(|ls|, i requires 0 <= i < |ls| => f(ls[i])))
  }

  /** Code blocks held by all lines, in order. */
  function LinesCodes(ls: seq<seq<Piece>>): seq<string> {
    if ls == [] then [] else CodesOf(ls[0]) + LinesCodes(ls[1..])
  }

  lemma {:induction false} JoinCodes(ls: seq<seq<Piece>>)
    requires |ls| > 0
    ensures CodesOf(JoinLines(ls)) == LinesCodes(ls)
    decreases |ls|
  {
    if |ls| > 1 {
      JoinCodes(ls[1..]);
      CodesAppend(ls[0] + [Newline], JoinLines(ls[1..]));
      CodesAppend(ls[0], [Newline]);
    }
  }

  lemma {:induction false} MapKeepsLinesCodes(ls: seq<seq<Piece>>, f: seq<Piece> -> seq<Piece>)
    requires forall l :: CodesOf(f(l)) == CodesOf(l)
    ensures LinesCodes(seq(|ls|, i requires 0 <= i < |ls| => f(ls[i]))) == LinesCodes(ls)
    decreases |ls|
  {
    if ls != [] {
      var m := seq(|ls|, i requires 0 <= i < |ls| => f(ls[i]));
      assert m[1..] == seq(|ls[1..]|, i requires 0 <= i < |ls[1..]| => f(ls[1..][i]));
      MapKeepsLinesCodes(ls[1..], f);
    }
  }

  /** A line rewrite that keeps every code block keeps them in the whole text too. */
  lemma MapLinesKeepsCodes(ps: seq<Piece>, f: seq<Piece> -> seq<Piece>)
    requires forall l :: CodesOf(f(l)) == CodesOf(l)
    ensures CodesOf(MapLines(ps, f)) == CodesOf(ps)
  {
    var ls := SplitLines(ps);
    var m := seq(|ls|, i requires 0 <= i < |ls| => f(ls[i]));
    JoinCodes(m);
    MapKeepsLinesCodes(ls, f);
    JoinCodes(ls);
    JoinSplit(ps);
  }

  /** A rewrite that leaves every line of the text alone leaves the text alone. */
  lemma MapLinesIdentity(ps: seq<Piece>, f: seq<Piece> -> seq<Piece>)
    requires forall i :: 0 <= i < |SplitLines(ps)| ==> f(SplitLines(ps)[i]) == SplitLines(ps)[i]
    ensures MapLines(ps, f) == ps
  {
    var ls := SplitLines(ps);
    assert seq(|ls|, i requires 0 <= i < |ls| => f(ls[i])) == ls;
    JoinSplit(ps);
  }

  /** On a single line, the rewrite is applied once to the whole text. */
  lemma MapLinesSingle(ps: seq<Piece>, f: seq<Piece> -> seq<Piece>)
    requires Newline !in ps
    ensures MapLines(ps, f) == f(ps)
  {
    SplitSingleLine(ps);
  }

  lemma LiftMembership(s: string, c: char)
    ensures Ch(c) in Lift(s) <==> c in s
  {
    if c in s {
      var i :| 0 <= i < |s| && s[i] == c;
      assert Lift(s)[i] == Ch(c);
    }
  }

  // ---------------------------------------------------------------------------
  // The rewrites, in the order the code applies them
  // ---------------------------------------------------------------------------

  /** The first `**` of the line and the next `**` after it, if both exist. */
  function StarPair(l: seq<Piece>): (r: Option<(nat, nat)>)
    ensures r.Some? ==> r.value.0 + 2 <= r.value.1 && r.value.1 + 2 <= |l|
    ensures r.Some? ==> l[r.value.0..r.value.0 + 2] == [Star, Star]
    ensures r.Some? ==> l[r.value.1..r.value.1 + 2] == [Star, Star]
  {
    match Text.Find(l, [Star, Star], 0)
    case None => None
    case Some(p) =>
      match Text.Find(l, [Star, Star], p + 2)
      case None => None
      case Some(q) => Some((p, q))
  }

  /** The pair `StarPair` finds starts at the leftmost `**` of the line and ends with the
      first `**` that starts after it. */
  lemma StarPairLeftmost(l: seq<Piece>, p: nat, q: nat)
    requires StarPair(l) == Some((p, q))
    ensures forall k: nat :: k < p ==> !Text.OccursAt(l, [Star, Star], k)
    ensures forall k: nat :: p + 2 <= k < q ==> !Text.OccursAt(l, [Star, Star], k)
  {
    match Text.Find(l, [Star, Star], 0)
    case None =>
    case Some(p') =>
      match Text.Find(l, [Star, Star], p' + 2)
      case None =>
      case Some(q') =>
  }

  /** Without a pair, no two `**` of the line are apart. */
  lemma NoStarPair(l: seq<Piece>)
    requires StarPair(l).None?
    ensures forall p: nat, q: nat :: p + 2 <= q && Text.OccursAt(l, [Star, Star], p) ==>
              !Text.OccursAt(l, [Star, Star], q)
  {
    match Text.Find(l, [Star, Star], 0)
    case None =>
    case Some(p) =>
      match Text.Find(l, [Star, Star], p + 2)
      case None =>
      case Some(q) =>
  }

  /** `re.sub(r'\*\*(.*?)\*\*', r'*\1*', text)` on one line: from the leftmost `**`, the
      shortest text up to the next `**` on the same line keeps one star at each end, and the
      search resumes after the match. When the leftmost `**` of a line has no partner, no
      later `**` of that line has one either. */
  function Emphasis(l: seq<Piece>): (r: seq<Piece>)
    ensures Star !in l ==> r == l
    ensures forall x :: x in r ==> x in l
    decreases |l|, 1
  {
    match StarPair(l)
    case None => l
    case Some((p, q)) => EmphasisAt(l, p, q)
  }

  /** The line after the pair of `**` at `p` and `q` is rewritten, and the rest of the line
      searched again. */
  function EmphasisAt(l: seq<Piece>, p: nat, q: nat): (r: seq<Piece>)
    requires p + 2 <= q && q + 2 <= |l| && l[p] == Star
    ensures forall x :: x in r ==> x in l
    decreases |l|, 0
  {
    l[..p] + [Star] + l[p + 2..q] + [Star] + Emphasis(l[q + 2..])
  }

  /** `n` hashes and a space: the start of a level-`n` header line. */
  function HeaderPrefix(n: nat): seq<Piece> {
    seq(n, _ => Hash) + [Space]
  }

  function Stars(n: nat): seq<Piece> {
    seq(n, _ => Star)
  }

  /** `re.sub(r'^#{n} (.+)$', r'*{n}\1*{n}', text, flags=re.MULTILINE)` on one line, for the
      three header levels the code converts: a header line with some text after the
      prefix becomes that text wrapped in `n` stars. */
  function Header(l: seq<Piece>, n: nat): (r: seq<Piece>)
    ensures n > 0 && Hash !in l ==> r == l
    ensures forall x :: x in r ==> x in l || x == Star
  {
    assert n > 0 && |l| > n + 1 && l[..n + 1] == HeaderPrefix(n) ==> l[..n + 1][0] == Hash;
    if |l| > n + 1 && l[..n + 1] == HeaderPrefix(n) then
      Stars(n) + l[n + 1..] + Stars(n)
    else
      l
  }

  /** `text.replace('|', '`|`')`: every bar is set in code font. */
  function Pipes(ps: seq<Piece>): (r: seq<Piece>)
    ensures Bar !in ps ==> r == ps
    ensures forall x :: x in r ==> x in ps || x == Tick
    decreases |ps|
  {
    if ps == [] then []
    else (if ps[0] == Bar then [Tick, Bar, Tick] else [ps[0]]) + Pipes(ps[1..])
  }

  /** `re.sub(r'^\* (.+)$', r'\U{2022} \1', text, flags=re.MULTILINE)` on one line. */
  function Bullet(l: seq<Piece>): (r: seq<Piece>)
    ensures Star !in l ==> r == l
    ensures forall x :: x in r ==> x in l || x == BulletMark
  {
    if |l| > 2 && l[0] == Star && l[1] == Space then [BulletMark, Space] + l[2..] else l
  }

  function Header1(l: seq<Piece>): seq<Piece> { Header(l, 1) }
  function Header2(l: seq<Piece>): seq<Piece> { Header(l, 2) }
  function Header3(l: seq<Piece>): seq<Piece> { Header(l, 3) }

  /** The rewrites, in order: emphasis, the three header levels, bars, then bullets. */
  function Rewrite(ps: seq<Piece>): seq<Piece> {
    var emphasised := MapLines(ps, Emphasis);
    var headed := MapLines(MapLines(MapLines(emphasised, Header1), Header2), Header3);
    MapLines(Pipes(headed), Bullet)
  }

  // ---------------------------------------------------------------------------
  // The rewrites never touch a code block
  // ---------------------------------------------------------------------------

  lemma NoCodesInChars(ps: seq<Piece>)
    requires forall i :: 0 <= i < |ps| ==> ps[i].Ch?
    ensures CodesOf(ps) == []
  {
    if ps != [] {
      NoCodesInChars(ps[1..]);
    }
  }

  lemma Codes3(a: seq<Piece>, b: seq<Piece>, c: seq<Piece>)
    ensures CodesOf(a + b + c) == CodesOf(a) + CodesOf(b) + CodesOf(c)
  {
    CodesAppend(a + b, c);
    CodesAppend(a, b);
  }

  lemma Codes5(a: seq<Piece>, b: seq<Piece>, c: seq<Piece>, d: seq<Piece>, e: seq<Piece>)
    ensures CodesOf(a + b + c + d + e)
         == CodesOf(a) + CodesOf(b) + CodesOf(c) + CodesOf(d) + CodesOf(e)
  {
    CodesAppend(a + b + c + d, e);
    CodesAppend(a + b + c, d);
    Codes3(a, b, c);
  }

  /** One emphasis step: dropping a star from each of two `**` marks keeps the codes. */
  lemma EmphasisStepCodes(l: seq<Piece>, p: nat, q: nat, tail: seq<Piece>)
    requires p + 2 <= q && q + 2 <= |l|
    requires l[p..p + 2] == [Star, Star] && l[q..q + 2] == [Star, Star]
    requires CodesOf(tail) == CodesOf(l[q + 2..])
    ensures CodesOf(l[..p] + [Star] + l[p + 2..q] + [Star] + tail) == CodesOf(l)
  {
    NoCodesInChars([Star]);
    NoCodesInChars(l[p..p + 2]);
    NoCodesInChars(l[q..q + 2]);
    Codes5(l[..p], [Star], l[p + 2..q], [Star], tail);
    SplitFive(l, p, p + 2, q, q + 2);
    Codes5(l[..p], l[p..p + 2], l[p + 2..q], l[q..q + 2], l[q + 2..]);
  }

  lemma SplitFive(l: seq<Piece>, a: nat, b: nat, c: nat, d: nat)
    requires a <= b <= c <= d <= |l|
    ensures l == l[..a] + l[a..b] + l[b..c] + l[c..d] + l[d..]
  {
  }

  /** Emphasis only drops stars, so every code block of the line survives, in order. */
  lemma {:induction false} EmphasisKeepsCodes(l: seq<Piece>)
    ensures CodesOf(Emphasis(l)) == CodesOf(l)
    decreases |l|
  {
    match StarPair(l)
    case None =>
    case Some((p, q)) =>
      StarPairFacts(l, p, q);
      EmphasisKeepsCodes(l[q + 2..]);
      var tail := Emphasis(l[q + 2..]);
      EmphasisUnfold(l, p, q);
      EmphasisStepCodes(l, p, q, tail);
  }

  lemma StarPairFacts(l: seq<Piece>, p: nat, q: nat)
    requires StarPair(l) == Some((p, q))
    ensures p + 2 <= q && q + 2 <= |l|
    ensures l[p..p + 2] == [Star, Star] && l[q..q + 2] == [Star, Star]
  {
    var r := StarPair(l);
    assert r.value.0 + 2 <= r.value.1 && r.value.1 + 2 <= |l|;
    assert l[r.value.0..r.value.0 + 2] == [Star, Star] && l[r.value.1..r.value.1 + 2] == [Star, Star];
  }

  lemma EmphasisUnfold(l: seq<Piece>, p: nat, q: nat)
    requires StarPair(l) == Some((p, q))
    ensures Emphasis(l) == l[..p] + [Star] + l[p + 2..q] + [Star] + Emphasis(l[q + 2..])
  {
    StarPairFacts(l, p, q);
    assert Emphasis(l) == EmphasisAt(l, p, q);
    EmphasisAtBody(l, p, q);
  }

  lemma EmphasisAtBody(l: seq<Piece>, p: nat, q: nat)
    requires p + 2 <= q && q + 2 <= |l| && l[p] == Star
    ensures EmphasisAt(l, p, q) == l[..p] + [Star] + l[p + 2..q] + [Star] + Emphasis(l[q + 2..])
  {
  }

  lemma HeaderKeepsCodes(l: seq<Piece>, n: nat)
    ensures CodesOf(Header(l, n)) == CodesOf(l)
  {
    if |l| > n + 1 && l[..n + 1] == HeaderPrefix(n) {
      NoCodesInChars(Stars(n));
      NoCodesInChars(l[..n + 1]);
      Codes3(Stars(n), l[n + 1..], Stars(n));
      assert l == l[..n + 1] + l[n + 1..];
      CodesAppend(l[..n + 1], l[n + 1..]);
    }
  }

  lemma {:induction false} PipesKeepsCodes(ps: seq<Piece>)
    ensures CodesOf(Pipes(ps)) == CodesOf(ps)
    decreases |ps|
  {
    if ps != [] {
      var head := if ps[0] == Bar then [Tick, Bar, Tick] else [ps[0]];
      PipesKeepsCodes(ps[1..]);
      CodesAppend(head, Pipes(ps[1..]));
      if ps[0] == Bar {
        NoCodesInChars(head);
        NoCodesInChars([ps[0]]);
      }
      CodesAppend([ps[0]], ps[1..]);
      assert ps == [ps[0]] + ps[1..];
    }
  }

  lemma BulletKeepsCodes(l: seq<Piece>)
    ensures CodesOf(Bullet(l)) == CodesOf(l)
  {
    if |l| > 2 && l[0] == Star && l[1] == Space {
      NoCodesInChars([BulletMark, Space]);
      NoCodesInChars(l[..2]);
      CodesAppend([BulletMark, Space], l[2..]);
      assert l == l[..2] + l[2..];
      CodesAppend(l[..2], l[2..]);
    }
  }

  /** The rewrites as a whole keep every code block, in order. */
  lemma RewriteKeepsCodes(ps: seq<Piece>)
    ensures CodesOf(Rewrite(ps)) == CodesOf(ps)
  {
    forall l ensures CodesOf(Emphasis(l)) == CodesOf(l) { EmphasisKeepsCodes(l); }
    forall l ensures CodesOf(Header1(l)) == CodesOf(l) { HeaderKeepsCodes(l, 1); }
    forall l ensures CodesOf(Header2(l)) == CodesOf(l) { HeaderKeepsCodes(l, 2); }
    forall l ensures CodesOf(Header3(l)) == CodesOf(l) { HeaderKeepsCodes(l, 3); }
    forall l ensures CodesOf(Bullet(l)) == CodesOf(l) { BulletKeepsCodes(l); }
    var e := MapLines(ps, Emphasis);
    MapLinesKeepsCodes(ps, Emphasis);
    var h1 := MapLines(e, Header1);
    MapLinesKeepsCodes(e, Header1);
    var h2 := MapLines(h1, Header2);
    MapLinesKeepsCodes(h1, Header2);
    var h3 := MapLines(h2, Header3);
    MapLinesKeepsCodes(h2, Header3);
    PipesKeepsCodes(h3);
    MapLinesKeepsCodes(Pipes(h3), Bullet);
  }

  /** Text without stars, hashes and bars is left exactly as it is. */
  lemma RewriteIdentity(ps: seq<Piece>)
    requires Star !in ps && Hash !in ps && Bar !in ps
    ensures Rewrite(ps) == ps
  {
    MapLinesIdentity(ps, Emphasis);
    MapLinesIdentity(ps, Header1);
    MapLinesIdentity(ps, Header2);
    MapLinesIdentity(ps, Header3);
    MapLinesIdentity(ps, Bullet);
  }

  /** On one line the rewrites are applied once each, in order. */
  lemma RewriteSingleLine(l: seq<Piece>)
    requires Newline !in l
    ensures Rewrite(l) == Bullet(Pipes(Header3(Header2(Header1(Emphasis(l))))))
  {
    MapLinesSingle(l, Emphasis);
    var e := Emphasis(l);
    MapLinesSingle(e, Header1);
    var h1 := Header1(e);
    MapLinesSingle(h1, Header2);
    var h2 := Header2(h1);
    MapLinesSingle(h2, Header3);
    var h3 := Header3(h2);
    MapLinesSingle(Pipes(h3), Bullet);
  }

  // ---------------------------------------------------------------------------
  // adjust_markdown_for_slack
  // ---------------------------------------------------------------------------

  /** The marker `f'__CODE_BLOCK_{i}__'` that stands in for the `i`-th code block. */
  function Placeholder(i: nat): (r: string)
    ensures '`' !in r && '*' !in r && '#' !in r && '|' !in r && '\n' !in r
    ensures |r| >= 16 && r[..13] == "__CODE_BLOCK_" && r[|r| - 2..] == "__"
  {
    "__CODE_BLOCK_" + Text.NatToString(i) + "__"
  }

  /** Each block, in turn, replaced everywhere by its placeholder. */
  function ProtectBlocks(s: string, blocks: seq<string>, i: nat): string
    requires i <= |blocks|
    decreases |blocks| - i
  {
    if i == |blocks| then s
    else ProtectBlocks(Text.ReplaceAll(s, blocks[i], Placeholder(i)), blocks, i + 1)
  }

  /** Each placeholder, in turn, replaced everywhere by its block. */
  function RestoreBlocks(s: string, blocks: seq<string>, i: nat): string
    requires i <= |blocks|
    decreases |blocks| - i
  {
    if i == |blocks| then s
    else RestoreBlocks(Text.ReplaceAll(s, Placeholder(i), blocks[i]), blocks, i + 1)
  }

  /** `adjust_markdown_for_slack` as written: code blocks are hidden behind placeholders
      by plain text replacement, the rewrites run on the whole text, and the placeholders
      are turned back into blocks by plain text replacement. */
  function AdjustMarkdownForSlack(s: string): (r: string)
    ensures s == "" ==> r == ""
  {
    if s == "" then ""
    else
      var blocks := FindBlocks(s);
      RestoreBlocks(Flatten(Rewrite(Lift(ProtectBlocks(s, blocks, 0)))), blocks, 0)
  }

  /** `adjust_markdown_for_slack` as evidently intended: the code blocks are set aside as
      whole pieces, so the rewrites cannot reach them and no other text can be mistaken
      for one of them. */
  function AdjustMarkdown(s: string): (r: string)
    ensures s == "" ==> r == ""
  {
    if s == "" then "" else Flatten(Rewrite(Segment(s)))
  }

  lemma {:induction false} SegmentChars(s: string)
    ensures forall c :: Ch(c) in Segment(s) ==> c in s
    decreases |s|
  {
    match FirstBlock(s)
    case None =>
      forall c | Ch(c) in Segment(s) ensures c in s { LiftMembership(s, c); }
    case Some((p, q)) =>
      SegmentChars(s[q + 3..]);
      forall c | Ch(c) in Segment(s) ensures c in s {
        if Ch(c) in Lift(s[..p]) {
          LiftMembership(s[..p], c);
        }
      }
  }

  /** Every code block of the input reappears, verbatim, in the adjusted text. */
  lemma CodeBlocksSurvive(s: string, b: string)
    requires b in FindBlocks(s)
    ensures Text.Contains(AdjustMarkdown(s), b)
  {
    SegmentCodes(s);
    RewriteKeepsCodes(Segment(s));
    CodesAppearInFlatten(Rewrite(Segment(s)), b);
    if s == "" {
      NoBacktickNoBlocks(s);
    }
  }

  /** Text with no stars, hashes or bars is returned unchanged, whatever code blocks it
      holds. */
  lemma MarkupFreeUnchanged(s: string)
    requires '*' !in s && '#' !in s && '|' !in s
    ensures AdjustMarkdown(s) == s
  {
    SegmentChars(s);
    RewriteIdentity(Segment(s));
    SegmentFlatten(s);
  }

  lemma ProtectNothing(s: string)
    ensures ProtectBlocks(s, [], 0) == s && RestoreBlocks(s, [], 0) == s
  {
  }

  /** Without a backtick there is no code block, and the code as written and the
      corrected function agree. */
  lemma FixAgreesWithoutCodeBlocks(s: string)
    requires '`' !in s
    ensures AdjustMarkdownForSlack(s) == AdjustMarkdown(s)
  {
    NoBacktickNoBlocks(s);
    ProtectNothing(s);
    ProtectNothing(Flatten(Rewrite(Lift(s))));
  }

  /** Plain prose, with none of the characters the rewrites look at, comes back as it was. */
  lemma PlainTextUnchanged(s: string)
    requires '*' !in s && '#' !in s && '|' !in s && '`' !in s
    ensures AdjustMarkdownForSlack(s) == s && AdjustMarkdown(s) == s
  {
    FixAgreesWithoutCodeBlocks(s);
    MarkupFreeUnchanged(s);
  }

  // ---------------------------------------------------------------------------
  // What the rewrites do to single lines
  // ---------------------------------------------------------------------------

  /** Without a backtick, both versions are the rewrites applied to the plain text. */
  lemma PlainAdjust(s: string)
    requires s != "" && '`' !in s
    ensures AdjustMarkdownForSlack(s) == Flatten(Rewrite(Lift(s)))
    ensures AdjustMarkdown(s) == Flatten(Rewrite(Lift(s)))
  {
    FixAgreesWithoutCodeBlocks(s);
    NoBacktickNoBlocks(s);
  }

  /** The single-line rewrites, for a line none of whose characters is a newline. */
  lemma PlainLine(s: string)
    requires '\n' !in s
    ensures Rewrite(Lift(s)) == Bullet(Pipes(Header3(Header2(Header1(Emphasis(Lift(s)))))))
  {
    LiftMembership(s, '\n');
    RewriteSingleLine(Lift(s));
  }

  lemma HeaderStep(x: string)
    requires x != "" && '*' !in x
    ensures Header1(Emphasis(Lift("# " + x))) == Lift("*" + x + "*")
  {
    var l := Lift("# " + x);
    LiftMembership("# " + x, '*');
    assert Emphasis(l) == l;
    LiftAppend("# ", x);
    assert HeaderPrefix(1) == [Hash, Space];
    assert l[..2] == [Hash, Space];
    assert l[2..] == Lift(x);
    LiftAppend("*", x);
    LiftAppend("*" + x, "*");
  }

  /** A line that starts with a star but not with `* ` and has no bar or hash at its
      start is left alone by the later passes. */
  lemma BoldStable(x: string)
    requires (x == "" || x[0] != ' ') && '|' !in x
    ensures Bullet(Pipes(Header3(Header2(Lift("*" + x + "*"))))) == Lift("*" + x + "*")
  {
    var h := Lift("*" + x + "*");
    if |h| > 3 { assert h[..3][0] == Star; }
    if |h| > 4 { assert h[..4][0] == Star; }
    assert Header2(h) == h;
    assert Header3(h) == h;
    LiftMembership("*" + x + "*", '|');
    assert Pipes(h) == h;
    if x != "" {
      assert h[1] == Ch(x[0]);
    }
  }

  /** A level-one header line becomes its text in bold. */
  lemma HeaderLine(x: string)
    requires x != "" && x[0] != ' '
    requires '\n' !in x && '*' !in x && '|' !in x && '`' !in x
    ensures AdjustMarkdownForSlack("# " + x) == "*" + x + "*"
    ensures AdjustMarkdown("# " + x) == "*" + x + "*"
  {
    PlainAdjust("# " + x);
    PlainLine("# " + x);
    HeaderStep(x);
    BoldStable(x);
    LiftFlatten("*" + x + "*");
  }

  /** The passes up to the third header level turn `## x` into `**x**`: the first level
      does not match two hashes, and the third does not match the stars the second wrote. */
  lemma Header2Step(x: string)
    requires x != "" && '*' !in x
    ensures Header3(Header2(Header1(Emphasis(Lift("## " + x))))) == Lift("**" + x + "**")
  {
    var l := Lift("## " + x);
    LiftMembership("## " + x, '*');
    assert Emphasis(l) == l;
    assert l[..2] != HeaderPrefix(1) by {
      assert l[..2][1] == Hash && HeaderPrefix(1)[1] == Space;
    }
    assert Header1(l) == l;
    LiftAppend("## ", x);
    assert HeaderPrefix(2) == [Hash, Hash, Space];
    assert l[..3] == [Hash, Hash, Space];
    assert l[3..] == Lift(x);
    var h := Lift("**" + x + "**");
    LiftAppend("**", x);
    LiftAppend("**" + x, "**");
    assert Stars(2) == [Star, Star] == Lift("**");
    assert Header2(l) == h;
    assert h[..4][0] == Star;
  }

  /** The passes up to the third header level turn `### x` into `***x***`: neither lower
      level matches three hashes. */
  lemma Header3Step(x: string)
    requires x != "" && '*' !in x
    ensures Header3(Header2(Header1(Emphasis(Lift("### " + x))))) == Lift("***" + x + "***")
  {
    var l := Lift("### " + x);
    LiftMembership("### " + x, '*');
    assert Emphasis(l) == l;
    assert l[..2] != HeaderPrefix(1) by {
      assert l[..2][1] == Hash && HeaderPrefix(1)[1] == Space;
    }
    assert Header1(l) == l;
    assert l[..3] != HeaderPrefix(2) by {
      assert l[..3][2] == Hash && HeaderPrefix(2)[2] == Space;
    }
    assert Header2(l) == l;
    LiftAppend("### ", x);
    assert HeaderPrefix(3) == [Hash, Hash, Hash, Space];
    assert l[..4] == [Hash, Hash, Hash, Space];
    assert l[4..] == Lift(x);
    LiftAppend("***", x);
    LiftAppend("***" + x, "***");
    assert Stars(3) == [Star, Star, Star] == Lift("***");
  }

  /** Text wrapped in two or three stars is left alone by the bar and bullet passes. */
  lemma StarredStable(x: string, m: string)
    requires m == "**" || m == "***"
    requires '|' !in x
    ensures Bullet(Pipes(Lift(m + x + m))) == Lift(m + x + m)
  {
    var h := Lift(m + x + m);
    LiftMembership(m + x + m, '|');
    assert Pipes(h) == h;
    assert h[1] == Star;
  }

  /** Level-two and level-three header lines become their text wrapped in two and three
      stars; the levels do not interfere, and the bullet pass leaves the result alone. */
  lemma HeaderLevels(x: string)
    requires x != ""
    requires '\n' !in x && '*' !in x && '|' !in x && '`' !in x
    ensures AdjustMarkdownForSlack("## " + x) == "**" + x + "**"
    ensures AdjustMarkdown("## " + x) == "**" + x + "**"
    ensures AdjustMarkdownForSlack("### " + x) == "***" + x + "***"
    ensures AdjustMarkdown("### " + x) == "***" + x + "***"
  {
    PlainAdjust("## " + x);
    PlainLine("## " + x);
    Header2Step(x);
    StarredStable(x, "**");
    LiftFlatten("**" + x + "**");
    PlainAdjust("### " + x);
    PlainLine("### " + x);
    Header3Step(x);
    StarredStable(x, "***");
    LiftFlatten("***" + x + "***");
  }

  /** The example in the docstring: `"# Hello, world!"` becomes `"*Hello, world!*"`. */
  lemma DocstringExample()
    ensures AdjustMarkdownForSlack("# Hello, world!") == "*Hello, world!*"
  {
    var x := "Hello, world!";
    assert "# Hello, world!" == "# " + x;
    assert "*Hello, world!*" == "*" + x + "*";
    HeaderLine(x);
  }

  /** A line with no `**` in it is left alone by the emphasis pass. */
  lemma NoDoubleStar(l: seq<Piece>)
    requires forall k :: 0 <= k < |l| - 1 ==> l[k] != Star || l[k + 1] != Star
    ensures Emphasis(l) == l
  {
    forall k: nat ensures !Text.OccursAt(l, [Star, Star], k) {
      if k + 2 <= |l| {
        assert l[k..k + 2][0] == l[k] && l[k..k + 2][1] == l[k + 1];
      }
    }
  }

  /** A line that does not start with a hash is no header of any level. */
  lemma NotHeader(l: seq<Piece>, n: nat)
    requires n > 0 && |l| > 0 && l[0] != Hash
    ensures Header(l, n) == l
  {
    if |l| > n + 1 {
      assert l[..n + 1][0] == l[0];
      assert HeaderPrefix(n)[0] == Hash;
    }
  }

  /** Emphasis and the header passes leave a `* x` line alone. */
  lemma StarLineUntouched(x: string)
    requires '*' !in x
    ensures var l := Lift("* " + x); Header3(Header2(Header1(Emphasis(l)))) == l
  {
    var l := Lift("* " + x);
    LiftAppend("* ", x);
    forall k | 2 <= k < |l| ensures l[k] != Star {
      assert l[k] == Ch(x[k - 2]);
    }
    NoDoubleStar(l);
    NotHeader(l, 1);
    NotHeader(l, 2);
    NotHeader(l, 3);
  }

  lemma BulletStep(x: string)
    requires x != "" && '*' !in x && '|' !in x
    ensures Bullet(Pipes(Header3(Header2(Header1(Emphasis(Lift("* " + x)))))))
         == Lift("\U{2022} " + x)
  {
    var l := Lift("* " + x);
    StarLineUntouched(x);
    LiftMembership("* " + x, '|');
    assert Pipes(l) == l;
    LiftAppend("* ", x);
    assert l[2..] == Lift(x);
    LiftAppend("\U{2022} ", x);
  }

  /** A `* ` list item becomes a bullet. */
  lemma BulletLine(x: string)
    requires x != ""
    requires '\n' !in x && '*' !in x && '|' !in x && '`' !in x
    ensures AdjustMarkdownForSlack("* " + x) == "\U{2022} " + x
    ensures AdjustMarkdown("* " + x) == "\U{2022} " + x
  {
    PlainAdjust("* " + x);
    PlainLine("* " + x);
    BulletStep(x);
    LiftFlatten("\U{2022} " + x);
  }

  /** In `**x**`, with no star in `x`, the matched pair is the two ends. */
  lemma BoldStarPair(x: string)
    requires '*' !in x
    ensures StarPair(Lift("**" + x + "**")) == Some((0, |x| + 2))
  {
    var l := Lift("**" + x + "**");
    LiftAppend("**", x);
    LiftAppend("**" + x, "**");
    var q := |x| + 2;
    forall k: nat | 2 <= k < q ensures !Text.OccursAt(l, [Star, Star], k) {
      assert l[k] == Ch(x[k - 2]);
      assert k + 2 <= |l| ==> l[k..k + 2][0] == l[k];
    }
    assert Text.OccursAt(l, [Star, Star], 0);
    assert Text.OccursAt(l, [Star, Star], q);
    match Text.Find(l, [Star, Star], 2)
    case None =>
    case Some(v) => assert !(v < q) && !(v > q);
  }

  lemma EmphasisStep(x: string)
    requires '*' !in x
    ensures Emphasis(Lift("**" + x + "**")) == Lift("*" + x + "*")
  {
    var l := Lift("**" + x + "**");
    var q := |x| + 2;
    BoldStarPair(x);
    LiftAppend("**", x);
    LiftAppend("**" + x, "**");
    assert l[2..q] == Lift(x);
    assert l[q + 2..] == [];
    LiftAppend("*", x);
    LiftAppend("*" + x, "*");
  }

  lemma BoldNotHeader(x: string)
    ensures Header1(Lift("*" + x + "*")) == Lift("*" + x + "*")
  {
    var h := Lift("*" + x + "*");
    assert h[0] == Star;
    if |h| > 2 { assert h[..2][0] == Star; }
  }

  lemma EmphasisRewrite(x: string)
    requires x == "" || x[0] != ' '
    requires '\n' !in x && '*' !in x && '|' !in x
    ensures Rewrite(Lift("**" + x + "**")) == Lift("*" + x + "*")
  {
    PlainLine("**" + x + "**");
    EmphasisStep(x);
    BoldNotHeader(x);
    BoldStable(x);
  }

  /** Double-star emphasis becomes Slack's single-star bold. */
  lemma EmphasisLine(x: string)
    requires x == "" || x[0] != ' '
    requires '\n' !in x && '*' !in x && '|' !in x && '`' !in x
    ensures AdjustMarkdownForSlack("**" + x + "**") == "*" + x + "*"
    ensures AdjustMarkdown("**" + x + "**") == "*" + x + "*"
  {
    PlainAdjust("**" + x + "**");
    EmphasisRewrite(x);
    LiftFlatten("*" + x + "*");
  }

  lemma {:induction false} PipesLift(s: string)
    ensures Pipes(Lift(s)) == Lift(Text.ReplaceAll(s, "|", "`|`"))
    decreases |s|
  {
    if s != "" {
      PipesLift(s[1..]);
      PipesLiftStep(s);
      ReplaceBarStep(s);
      LiftAppend(BarText(s[0]), Text.ReplaceAll(s[1..], "|", "`|`"));
    }
  }

  /** What `str.replace("|", "`|`")` makes of one character. */
  function BarText(c: char): string {
    if c == '|' then "`|`" else [c]
  }

  lemma PipesLiftStep(s: string)
    requires s != ""
    ensures Pipes(Lift(s)) == Lift(BarText(s[0])) + Pipes(Lift(s[1..]))
  {
    assert Lift(s)[1..] == Lift(s[1..]);
    assert Lift(s)[0] == Ch(s[0]);
    if s[0] == '|' {
      assert Lift("`|`") == [Tick, Bar, Tick];
    } else {
      assert Lift([s[0]]) == [Ch(s[0])];
    }
  }

  lemma ReplaceBarStep(s: string)
    requires s != ""
    ensures Text.ReplaceAll(s, "|", "`|`") == BarText(s[0]) + Text.ReplaceAll(s[1..], "|", "`|`")
  {
    assert Text.OccursAt(s, "|", 0) <==> s[0] == '|' by {
      assert s[0..1][0] == s[0];
    }
  }

  /** Lines without stars or hashes only have their bars rewritten. */
  lemma RewriteOnlyPipes(ps: seq<Piece>)
    requires Star !in ps && Hash !in ps
    ensures Rewrite(ps) == Pipes(ps)
  {
    MapLinesIdentity(ps, Emphasis);
    MapLinesIdentity(ps, Header1);
    MapLinesIdentity(ps, Header2);
    MapLinesIdentity(ps, Header3);
    MapLinesIdentity(Pipes(ps), Bullet);
  }

  /** In text without stars, hashes or code, every bar is put in code font and nothing
      else changes: the result is `text.replace('|', '`|`')`. */
  lemma PipesBecomeCode(s: string)
    requires '*' !in s && '#' !in s && '`' !in s
    ensures AdjustMarkdownForSlack(s) == Text.ReplaceAll(s, "|", "`|`")
    ensures AdjustMarkdown(s) == Text.ReplaceAll(s, "|", "`|`")
  {
    if s != "" {
      PlainAdjust(s);
      LiftMembership(s, '*');
      LiftMembership(s, '#');
      RewriteOnlyPipes(Lift(s));
      PipesLift(s);
      LiftFlatten(Text.ReplaceAll(s, "|", "`|`"));
    }
  }

  // ---------------------------------------------------------------------------
  // A placeholder in the text is mistaken for a code block
  // ---------------------------------------------------------------------------

  lemma FirstPlaceholder()
    ensures Placeholder(0) == "__CODE_BLOCK_0__"
  {
    assert Text.NatToString(0) == "0";
  }

  /** Text free of backticks followed by one short block holds exactly that block. */
  lemma OneBlockAfterPlain(p: string, c: char)
    requires '`' !in p && c != '`'
    ensures FindBlocks(p + "```" + [c] + "```") == ["```" + [c] + "```"]
  {
    var s := p + "```" + [c] + "```";
    var n := |p|;
    OneBlockFirst(p, c);
    FindBlocksUnfold(s, n, n + 4);
    assert s[n..n + 7] == "```" + [c] + "```";
    assert s[n + 7..] == "";
  }

  /** The block after a text free of backticks is the first one the scan finds. */
  lemma OneBlockFirst(p: string, c: char)
    requires '`' !in p && c != '`'
    ensures FirstBlock(p + "```" + [c] + "```") == Some((|p|, |p| + 4))
  {
    var b := "```" + [c] + "```";
    var s := p + b;
    assert p + "```" + [c] + "```" == s;
    var n := |p|;
    Text.NoStartInside(p, b, Fence);
    assert s[n..n + 3] == Fence;
    assert Text.OccursAt(s, Fence, n);
    match Text.Find(s, Fence, 0)
    case None =>
    case Some(v) => assert !(v < n) && !(v > n);
    assert s[n + 3] == c;
    assert !Text.OccursAt(s, Fence, n + 3);
    assert s[n + 4..n + 7] == Fence;
    assert Text.OccursAt(s, Fence, n + 4);
    match Text.Find(s, Fence, n + 3)
    case None =>
    case Some(v) => assert !(v < n + 4) && !(v > n + 4);
  }

  /** Replacing a block that follows a text without its first character. */
  lemma ProtectAfterPlain(p: string, b: string)
    requires |b| > 0 && b[0] !in p
    ensures Text.ReplaceAll(p + b, b, p) == p + p
  {
    Text.NoStartInside(p, b, b);
    Text.ReplaceSkipsPrefix(p, b, b, p);
    assert b + [] == b;
    Text.ReplaceAtFront(b, [], b, p);
  }

  /** Restoring a placeholder that the text holds twice. */
  lemma RestoreTwice(p: string, b: string)
    requires |p| > 0
    ensures Text.ReplaceAll(p + p, p, b) == b + b
  {
    Text.ReplaceAtFront(p, p, p, b);
    assert p + [] == p;
    Text.ReplaceAtFront(p, [], p, b);
  }

  lemma RestoreFirst(p: string, b: string)
    requires p == Placeholder(0)
    ensures RestoreBlocks(p + p, [b], 0) == b + b
  {
    RestoreTwice(p, b);
  }

  /** A text made of the first placeholder and then one code block, with no markup. */
  lemma PlaceholderThenBlock(p: string, b: string)
    requires p == Placeholder(0) && FindBlocks(p + b) == [b]
    requires |b| > 0 && b[0] == '`'
    ensures AdjustMarkdownForSlack(p + b) == b + b
  {
    ProtectAfterPlain(p, b);
    assert ProtectBlocks(p + b, [b], 0) == p + p;
    LiftMembership(p + p, '*');
    LiftMembership(p + p, '#');
    LiftMembership(p + p, '|');
    RewriteIdentity(Lift(p + p));
    LiftFlatten(p + p);
    RestoreFirst(p, b);
  }

  /** As written, a placeholder spelled out in the text is replaced by the code block:
      `__CODE_BLOCK_0__` followed by a one-character block has no markup at all, yet
      comes back with the block twice and the placeholder gone. */
  lemma PlaceholderCollision(c: char)
    requires c != '`'
    ensures var b := "```" + [c] + "```";
            AdjustMarkdownForSlack(Placeholder(0) + b) == b + b != Placeholder(0) + b
  {
    var p := Placeholder(0);
    var b := "```" + [c] + "```";
    OneBlockAfterPlain(p, c);
    assert p + "```" + [c] + "```" == p + b;
    PlaceholderThenBlock(p, b);
    assert |b + b| != |p + b|;
  }

  /** The corrected function leaves the same text as it was. */
  lemma PlaceholderKept(c: char)
    requires c != '*' && c != '#' && c != '|'
    ensures var b := "```" + [c] + "```";
            AdjustMarkdown(Placeholder(0) + b) == Placeholder(0) + b
  {
    var p := Placeholder(0);
    var b := "```" + [c] + "```";
    assert forall x :: x in b ==> x == '`' || x == c;
    assert forall x :: x in p + b ==> x in p || x in b;
    MarkupFreeUnchanged(p + b);
  }

  // ---------------------------------------------------------------------------
  // A block whose text also ends another block
  // ---------------------------------------------------------------------------

  /** A fence at `n` with no backtick before it, and a fence at `e` with no backtick
      between the two: that is the first block the scan finds. */
  lemma BlockAt(s: string, n: nat, e: nat)
    requires n + 3 <= e && e + 3 <= |s|
    requires forall k :: 0 <= k < n ==> s[k] != '`'
    requires forall k :: n + 3 <= k < e ==> s[k] != '`'
    requires s[n..n + 3] == Fence && s[e..e + 3] == Fence
    ensures FirstBlock(s) == Some((n, e))
  {
    forall k: nat | k < n ensures !Text.OccursAt(s, Fence, k) {
      assert k + 3 <= |s| ==> s[k..k + 3][0] == s[k];
    }
    assert Text.OccursAt(s, Fence, n);
    match Text.Find(s, Fence, 0)
    case None =>
    case Some(v) => assert !(v < n) && !(v > n);
    forall k: nat | n + 3 <= k < e ensures !Text.OccursAt(s, Fence, k) {
      assert k + 3 <= |s| ==> s[k..k + 3][0] == s[k];
    }
    assert Text.OccursAt(s, Fence, e);
    match Text.Find(s, Fence, n + 3)
    case None =>
    case Some(v) => assert !(v < e) && !(v > e);
  }

  /** A single fence after text free of backticks opens no block. */
  lemma LoneFence(p: string)
    requires '`' !in p
    ensures FindBlocks(p + Fence) == []
  {
    var s := p + Fence;
    Text.NoStartInside(p, Fence, Fence);
    assert s[|p|..] == Fence;
    assert Text.OccursAt(s, Fence, |p|);
    match Text.Find(s, Fence, 0)
    case None =>
    case Some(v) =>
      assert !(v < |p|) && !(v > |p|);
      assert Text.Find(s, Fence, |p| + 3) == None;
  }

  /** The blocks of `A ```**x**A`, where `A` is the one-character block ```` ```a``` ````:
      `A` and then ```` ```**x**``` ````, whose closing fence starts the second `A`. */
  lemma BlockTextBlocks(a: char, x: string)
    requires a != '`' && '`' !in x
    ensures var f := Fence + [a] + Fence;
            var m := "**" + x + "**";
            FindBlocks(f + (" " + Fence + m) + f) == [f, Fence + m + Fence]
  {
    var f := Fence + [a] + Fence;
    var m := "**" + x + "**";
    var b := Fence + m + Fence;
    var t := " " + b + ([a] + Fence);
    assert f + (" " + Fence + m) + f == f + t by { Regroup(Fence, [a], " ", m); }
    assert FindBlocks(f + t) == [f] + FindBlocks(t) by { LeadingBlock(a, t); }
    assert FindBlocks(t) == [b] by {
      BoldTicks(x);
      SpacedBlock(m, [a]);
    }
  }

  /** Bold markers add no backtick. */
  lemma BoldTicks(x: string)
    requires '`' !in x
    ensures '`' !in "**" + x + "**"
  {
    var m := "**" + x + "**";
    assert forall i :: 0 <= i < |m| ==> m[i] == '*' || m[i] in x;
  }

  /** `f a f sp f m f a f`, grouped as the scan for blocks reads it. */
  lemma Regroup<T>(f: seq<T>, a: seq<T>, sp: seq<T>, m: seq<T>)
    ensures (f + a + f) + (sp + f + m) + (f + a + f) == (f + a + f) + (sp + (f + m + f) + (a + f))
  {
  }

  /** A one-character block at the front is found first, and the scan resumes after it. */
  lemma LeadingBlock(a: char, t: string)
    requires a != '`'
    ensures FindBlocks(Fence + [a] + Fence + t) == [Fence + [a] + Fence] + FindBlocks(t)
  {
    var f := Fence + [a] + Fence;
    var s := f + t;
    assert s[..7] == f;
    BlockAt(s, 0, 4);
    FindBlocksUnfold(s, 0, 4);
    assert s[7..] == t;
  }

  /** After a space, a block whose inside has no backtick, followed by text without one
      and a lone fence: that block is the only one. */
  lemma SpacedBlock(m: string, p: string)
    requires '`' !in m && '`' !in p
    ensures FindBlocks(" " + (Fence + m + Fence) + (p + Fence)) == [Fence + m + Fence]
  {
    var b := Fence + m + Fence;
    var t := " " + b + (p + Fence);
    var e := 4 + |m|;
    SpacedBlockParts(m, p);
    BlockAt(t, 1, e);
    FindBlocksUnfold(t, 1, e);
    LoneFence(p);
  }

  /** Where the pieces of `" " + (Fence + m + Fence) + (p + Fence)` sit. */
  lemma SpacedBlockParts(m: string, p: string)
    requires '`' !in m
    ensures var t := " " + (Fence + m + Fence) + (p + Fence);
            var e := 4 + |m|;
            t[1..4] == Fence && t[e..e + 3] == Fence &&
            (forall k :: 4 <= k < e ==> t[k] != '`') &&
            t[1..e + 3] == Fence + m + Fence && t[e + 3..] == p + Fence
  {
    var t := " " + (Fence + m + Fence) + (p + Fence);
    var e := 4 + |m|;
    forall k | 4 <= k < e ensures t[k] != '`' {
      assert t[k] == m[k - 4];
    }
    assert t[1..e + 3] == Fence + m + Fence;
    assert t[e + 3..] == p + Fence;
  }

  /** Replacing a marker that starts and ends the text, with no occurrence starting in
      between, rewrites just the two ends. */
  lemma ReplaceEnds(f: string, mid: string, p: string)
    requires |f| > 0
    requires forall k: nat :: k < |mid| ==> !Text.OccursAt(mid + f, f, k)
    ensures Text.ReplaceAll(f + mid + f, f, p) == p + mid + p
  {
    assert f + mid + f == f + (mid + f);
    Text.ReplaceAtFront(f, mid + f, f, p);
    Text.ReplaceSkipsPrefix(mid, f, f, p);
    assert f + [] == f;
    Text.ReplaceAtFront(f, [], f, p);
    assert Text.ReplaceAll([], f, p) == [];
  }

  /** No one-character block ```` ```a``` ```` starts inside ```` ```**x** ```` once it is
      followed by one: the fourth character after the space is a star, not `a`. */
  lemma NoBlockStartsInBold(a: char, x: string)
    requires a != '`' && a != '*' && '`' !in x
    ensures var f := Fence + [a] + Fence;
            var mid := " " + Fence + ("**" + x + "**");
            forall k: nat :: k < |mid| ==> !Text.OccursAt(mid + f, f, k)
  {
    var f := Fence + [a] + Fence;
    var m := "**" + x + "**";
    var mid := " " + Fence + m;
    var w := mid + f;
    assert w[0] == ' ' && w[4] == '*';
    assert forall i :: 4 <= i < |mid| ==> w[i] == m[i - 4];
    BoldTicks(x);
    forall k: nat | k < |mid| ensures !Text.OccursAt(w, f, k) {
      if k + 7 <= |w| {
        if k == 0 || k >= 4 {
          assert w[k..k + 7][0] == w[k] != f[0];
        } else {
          assert w[k..k + 7][4 - k] == w[4] != f[4 - k];
        }
      }
    }
  }

  /** Once both one-character blocks are placeholders without backticks, the text holds a
      single fence, so the second block ```` ```**x**``` ```` no longer occurs in it. */
  lemma BoldBlockGone(p: string, x: string)
    requires '`' !in p && '`' !in x
    ensures var m := "**" + x + "**";
            var w := p + (" " + Fence + m) + p;
            Text.ReplaceAll(w, Fence + m + Fence, Placeholder(1)) == w
  {
    var m := "**" + x + "**";
    var b := Fence + m + Fence;
    var w := p + (" " + Fence + m) + p;
    var n := |p|;
    BoldTicks(x);
    forall i | 0 <= i < |w| && !(n + 1 <= i <= n + 3) ensures w[i] != '`' {
      if i < n {
        assert w[i] == p[i];
      } else if i >= n + 4 + |m| {
        assert w[i] == p[i - n - 4 - |m|];
      } else if i >= n + 4 {
        assert w[i] == m[i - n - 4];
      }
    }
    forall k: nat | k < |w| ensures !Text.OccursAt(w, b, k) {
      if k + |b| <= |w| {
        if w[k] != '`' {
          assert w[k..k + |b|][0] == w[k] != b[0];
        } else {
          assert w[k..k + |b|][|b| - 1] == w[k + |b| - 1] != b[|b| - 1];
        }
      }
    }
    Text.ReplaceWithoutOccurrence(w, b, Placeholder(1));
  }

  /** As written, both blocks are protected in turn: the two one-character blocks become
      the first placeholder, and with them goes the closing fence of the second block, which
      then is not found any more. */
  lemma ProtectOverlap(a: char, x: string)
    requires a != '`' && a != '*' && '`' !in x
    ensures var f := Fence + [a] + Fence;
            var m := "**" + x + "**";
            var mid := " " + Fence + m;
            ProtectBlocks(f + mid + f, [f, Fence + m + Fence], 0)
              == Placeholder(0) + mid + Placeholder(0)
  {
    var f := Fence + [a] + Fence;
    var m := "**" + x + "**";
    var mid := " " + Fence + m;
    var p := Placeholder(0);
    var blocks := [f, Fence + m + Fence];
    NoBlockStartsInBold(a, x);
    ReplaceEnds(f, mid, p);
    BoldBlockGone(p, x);
    assert ProtectBlocks(f + mid + f, blocks, 0) == ProtectBlocks(p + mid + p, blocks, 1);
    assert ProtectBlocks(p + mid + p, blocks, 1) == ProtectBlocks(p + mid + p, blocks, 2);
  }

  /** A `**` at `n` with no star before it, and a `**` at `q` with no star between the
      two: that is the pair matched. */
  lemma StarPairAt(l: seq<Piece>, n: nat, q: nat)
    requires n + 2 <= q && q + 2 <= |l|
    requires forall k :: 0 <= k < n ==> l[k] != Star
    requires forall k :: n + 2 <= k < q ==> l[k] != Star
    requires l[n] == Star && l[n + 1] == Star && l[q] == Star && l[q + 1] == Star
    ensures StarPair(l) == Some((n, q))
  {
    forall k: nat | k < n || n + 2 <= k < q ensures !Text.OccursAt(l, [Star, Star], k) {
      assert k + 2 <= |l| ==> l[k..k + 2][0] == l[k];
    }
    assert l[n..n + 2] == [Star, Star];
    assert l[q..q + 2] == [Star, Star];
    assert Text.OccursAt(l, [Star, Star], n) && Text.OccursAt(l, [Star, Star], q);
    match Text.Find(l, [Star, Star], 0)
    case None =>
    case Some(v) => assert !(v < n) && !(v > n);
    match Text.Find(l, [Star, Star], n + 2)
    case None =>
    case Some(v) => assert !(v < q) && !(v > q);
  }

  /** With no other star on the line, the `**` pair around `b` is the one matched. */
  lemma StarPairInside(a: seq<Piece>, b: seq<Piece>, c: seq<Piece>)
    requires Star !in a && Star !in b
    ensures StarPair(a + [Star, Star] + b + [Star, Star] + c) == Some((|a|, |a| + 2 + |b|))
  {
    var l := a + [Star, Star] + b + [Star, Star] + c;
    var n := |a|;
    var q := n + 2 + |b|;
    forall k | 0 <= k < n ensures l[k] != Star {
      assert l[k] == a[k];
    }
    forall k | n + 2 <= k < q ensures l[k] != Star {
      assert l[k] == b[k - n - 2];
    }
    StarPairAt(l, n, q);
  }

  /** The emphasis pass on a line whose only stars are one `**b**`. */
  lemma EmphasisInside(a: seq<Piece>, b: seq<Piece>, c: seq<Piece>)
    requires Star !in a && Star !in b && Star !in c
    ensures Emphasis(a + [Star, Star] + b + [Star, Star] + c) == a + [Star] + b + [Star] + c
  {
    var l := a + [Star, Star] + b + [Star, Star] + c;
    var n := |a|;
    var q := n + 2 + |b|;
    StarPairInside(a, b, c);
    assert l[..n] == a && l[n + 2..q] == b && l[q + 2..] == c;
    EmphasisOfParts(l, n, q, a, b, c, a + [Star] + b + [Star] + c);
  }

  /** The emphasis pass on a line, told by the parts around its matched pair. */
  lemma EmphasisOfParts(l: seq<Piece>, n: nat, q: nat, a: seq<Piece>, b: seq<Piece>,
                        c: seq<Piece>, u: seq<Piece>)
    requires StarPair(l) == Some((n, q))
    requires l[..n] == a && l[n + 2..q] == b && Emphasis(l[q + 2..]) == c
    requires u == a + [Star] + b + [Star] + c
    ensures Emphasis(l) == u
  {
  }

  /** The emphasis pass on a text line whose only stars are one `**x**`. */
  lemma EmphasisInsideText(pre: string, x: string, post: string)
    requires '*' !in pre && '*' !in x && '*' !in post
    ensures Emphasis(Lift(pre + "**" + x + "**" + post)) == Lift(pre + "*" + x + "*" + post)
  {
    LiftMembership(pre, '*');
    LiftMembership(x, '*');
    LiftMembership(post, '*');
    LiftAround(pre, x, post, "**");
    LiftAround(pre, x, post, "*");
    assert Lift("**") == [Star, Star] && Lift("*") == [Star];
    EmphasisInside(Lift(pre), Lift(x), Lift(post));
  }

  /** The pieces of `pre m x m post`, for a marker `m`. */
  lemma LiftAround(pre: string, x: string, post: string, m: string)
    ensures var l := Lift(pre + m + x + m + post);
            var n := |pre| + |m|;
            var q := n + |x|;
            l[..|pre|] == Lift(pre) && l[n..q] == Lift(x) && l[q + |m|..] == Lift(post)
    ensures Lift(pre + m + x + m + post) == Lift(pre) + Lift(m) + Lift(x) + Lift(m) + Lift(post)
  {
    LiftAppend(pre, m);
    LiftAppend(pre + m, x);
    LiftAppend(pre + m + x, m);
    LiftAppend(pre + m + x + m, post);
  }

  /** `p sp f st x st p`, grouped as the emphasis pass reads it. */
  lemma RegroupLine<T>(p: seq<T>, sp: seq<T>, f: seq<T>, st: seq<T>, x: seq<T>)
    ensures p + (sp + f + (st + x + st)) + p == (p + sp + f) + st + x + st + p
  {
  }

  /** The placeholders start with an underscore. */
  lemma PlaceholderStart(i: nat)
    ensures Placeholder(i)[0] == '_'
  {
    assert Placeholder(i)[..13][0] == '_';
  }

  /** A line that starts with neither a hash nor a star and holds no bar is left alone by
      the passes after emphasis. */
  lemma LaterPassesKeep(l: seq<Piece>)
    requires |l| > 0 && l[0] != Hash && l[0] != Star && Bar !in l
    ensures Bullet(Pipes(Header3(Header2(Header1(l))))) == l
  {
    NotHeader(l, 1);
    NotHeader(l, 2);
    NotHeader(l, 3);
  }

  /** On the protected text, the rewrites only turn `**x**` into `*x*`: the line starts
      with the placeholder, so it is no header and no list item, and it holds no bar. */
  lemma RewriteProtected(x: string)
    requires '*' !in x && '|' !in x && '\n' !in x
    ensures var p := Placeholder(0);
            Rewrite(Lift(p + (" " + Fence + ("**" + x + "**")) + p))
              == Lift(p + (" " + Fence + ("*" + x + "*")) + p)
  {
    ProtectedSingleLine(x);
    ProtectedEmphasis(x);
    ProtectedLaterPasses(x);
  }

  lemma ProtectedSingleLine(x: string)
    requires '\n' !in x
    ensures var p := Placeholder(0);
            var l := Lift(p + (" " + Fence + ("**" + x + "**")) + p);
            Rewrite(l) == Bullet(Pipes(Header3(Header2(Header1(Emphasis(l))))))
  {
    var p := Placeholder(0);
    var w := p + (" " + Fence + ("**" + x + "**")) + p;
    assert '\n' !in w;
    PlainLine(w);
  }

  lemma ProtectedEmphasis(x: string)
    requires '*' !in x
    ensures var p := Placeholder(0);
            Emphasis(Lift(p + (" " + Fence + ("**" + x + "**")) + p))
              == Lift(p + (" " + Fence + ("*" + x + "*")) + p)
  {
    var p := Placeholder(0);
    RegroupLine(p, " ", Fence, "**", x);
    RegroupLine(p, " ", Fence, "*", x);
    EmphasisInsideText(p + " " + Fence, x, p);
  }

  lemma ProtectedLaterPasses(x: string)
    requires '|' !in x
    ensures var l := Lift(Placeholder(0) + (" " + Fence + ("*" + x + "*")) + Placeholder(0));
            Bullet(Pipes(Header3(Header2(Header1(l))))) == l
  {
    var p := Placeholder(0);
    var y := p + (" " + Fence + ("*" + x + "*")) + p;
    PlaceholderStart(0);
    assert Lift(y)[0] == Ch(y[0]) && y[0] == p[0];
    assert '|' !in y;
    LiftMembership(y, '|');
    LaterPassesKeep(Lift(y));
  }

  /** Restoring turns the two placeholders back into one-character blocks; the second
      placeholder never made it into the text, so nothing else changes. */
  lemma RestoreOverlap(a: char, x: string)
    requires a != '_' && '_' !in x
    ensures var f := Fence + [a] + Fence;
            var mid := " " + Fence + ("*" + x + "*");
            var p := Placeholder(0);
            RestoreBlocks(p + mid + p, [f, Fence + ("**" + x + "**") + Fence], 0) == f + mid + f
  {
    var f := Fence + [a] + Fence;
    var mid := " " + Fence + ("*" + x + "*");
    var p := Placeholder(0);
    var q := Placeholder(1);
    var blocks := [f, Fence + ("**" + x + "**") + Fence];
    var z := f + mid + f;
    PlaceholderStart(0);
    PlaceholderStart(1);
    assert '_' !in mid;
    Text.NoStartInside(mid, p, p);
    ReplaceEnds(p, mid, f);
    assert '_' !in z;
    Text.NoStartInside(z, [], q);
    assert z + [] == z;
    Text.ReplaceWithoutOccurrence(z, q, blocks[1]);
    assert RestoreBlocks(p + mid + p, blocks, 0) == RestoreBlocks(z, blocks, 1);
    assert RestoreBlocks(z, blocks, 1) == RestoreBlocks(z, blocks, 2);
  }

  /** The text that comes back holds two stars, too few for the block
      ```` ```**x**``` ````, which has four. */
  lemma BoldBlockLost(a: char, x: string)
    requires a != '*' && '*' !in x
    ensures var f := Fence + [a] + Fence;
            !Text.Contains(f + (" " + Fence + ("*" + x + "*")) + f, Fence + ("**" + x + "**") + Fence)
  {
    var f := Fence + [a] + Fence;
    var m := "*" + x + "*";
    var o := f + (" " + Fence + m) + f;
    var b := Fence + ("**" + x + "**") + Fence;
    var e := 12 + |x|;
    assert b[3] == '*' && b[4] == '*' && b[|x| + 5] == '*';
    forall i | 0 <= i < |o| && i != 11 && i != e ensures o[i] != '*' {
      if i < 11 {
        assert o[i] == (f + " " + Fence)[i];
      } else if i < e {
        assert o[i] == x[i - 12];
      } else {
        assert o[i] == f[i - e - 1];
      }
    }
    forall k | 0 <= k <= |o| ensures !Text.OccursAt(o, b, k) {
      if k + |b| <= |o| {
        if o[k + 3] != '*' {
          assert o[k..k + |b|][3] == o[k + 3] != b[3];
        } else if o[k + 4] != '*' {
          assert o[k..k + |b|][4] == o[k + 4] != b[4];
        } else {
          assert o[k..k + |b|][|x| + 5] == o[k + |x| + 5] != b[|x| + 5];
        }
      }
    }
  }

  /** As written, a code block whose closing fence also opens a later block is not kept:
      in ```` ```a``` ```**x**```a``` ```` the scan finds ```` ```a``` ```` and then
      ```` ```**x**``` ````, protecting the first replaces both copies of ```` ```a``` ````,
      the second block is then nowhere to be found, and its text is rewritten to
      ```` ```*x* ````. The corrected function keeps every block. */
  lemma BlockTextRepeated(a: char, x: string)
    requires a != '`' && a != '*' && a != '_'
    requires '`' !in x && '*' !in x && '_' !in x && '|' !in x && '\n' !in x
    ensures var f := Fence + [a] + Fence;
            var b := Fence + ("**" + x + "**") + Fence;
            var s := f + (" " + Fence + ("**" + x + "**")) + f;
            FindBlocks(s) == [f, b] &&
            AdjustMarkdownForSlack(s) == f + (" " + Fence + ("*" + x + "*")) + f &&
            !Text.Contains(AdjustMarkdownForSlack(s), b) &&
            Text.Contains(AdjustMarkdown(s), b)
  {
    var f := Fence + [a] + Fence;
    var b := Fence + ("**" + x + "**") + Fence;
    var s := f + (" " + Fence + ("**" + x + "**")) + f;
    var p := Placeholder(0);
    var y := p + (" " + Fence + ("*" + x + "*")) + p;
    BlockTextBlocks(a, x);
    assert ProtectBlocks(s, [f, b], 0) == p + (" " + Fence + ("**" + x + "**")) + p by {
      ProtectOverlap(a, x);
    }
    assert Flatten(Rewrite(Lift(ProtectBlocks(s, [f, b], 0)))) == y by {
      RewriteProtected(x);
      LiftFlatten(y);
    }
    RestoreOverlap(a, x);
    BoldBlockLost(a, x);
    CodeBlocksSurvive(s, b);
  }

}
