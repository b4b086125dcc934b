/** Slack block-kit layout of replies: `Slack.format_response` in libs/slack.py.
    Every response becomes a divider followed by one section per 3000-character chunk,
    and the whole message ends with one more divider. */
module SlackBlocks {

  /** Longest text a single section block carries. */
  const SectionLimit: nat := 3000

  datatype Block = Divider | Section(text: string)

  /** The argument of `format_response`: a single response or a list of them. */
  datatype Responses = Single(text: string) | Many(items: seq<string>)

  /** A non-list argument is handled as a one-element list. */
  function AsList(rs: Responses): seq<string> {
    match rs
    case Single(t) => [t]
    case Many(ts) => ts
  }

  function CeilDiv(n: nat, d: nat): nat
    requires d > 0
  {
    (n + d - 1) / d
  }

  function Min(a: int, b: int): int {
    if a <= b then a else b
  }

  /** `[s[i:i + 3000] for i in range(0, len(s), 3000)]`: chunk `i` starts at `3000 * i`. */
  function Chunks(s: string): (cs: seq<string>)
    ensures |cs| == CeilDiv(|s|, SectionLimit)
    ensures forall i :: 0 <= i < |cs| ==> 0 < |cs[i]| <= SectionLimit
    ensures forall i :: 0 <= i < |cs| - 1 ==> |cs[i]| == SectionLimit
  {
    seq(CeilDiv(|s|, SectionLimit), i requires 0 <= i < CeilDiv(|s|, SectionLimit) =>
      s[i * SectionLimit .. Min((i + 1) * SectionLimit, |s|)])
  }

  /** Concatenation of a list of strings, `"".join(cs)`. */
  function Concat(cs: seq<string>): string {
    if cs == [] then [] else cs[0] + Concat(cs[1..])
  }

  /** Peeling off the first chunk leaves the chunks of the rest of the text. */
  lemma ChunksUnfold(s: string)
    requires |s| > 0
    ensures Chunks(s) == [s[..Min(SectionLimit, |s|)]] + Chunks(s[Min(SectionLimit, |s|)..])
  {
    var k := Min(SectionLimit, |s|);
    var cs, rest := Chunks(s), Chunks(s[k..]);
    assert |cs| == 1 + |rest|;
    forall i | 0 <= i < |rest|
      ensures cs[i + 1] == rest[i]
    {
      var lo, hi := i * SectionLimit, Min((i + 1) * SectionLimit, |s| - k);
      assert k == SectionLimit;
      assert lo + k == (i + 1) * SectionLimit;
      assert hi + k == Min((i + 2) * SectionLimit, |s|);
      assert s[k..][lo..hi] == s[lo + k..hi + k];
    }
    assert cs == [cs[0]] + rest;
  }

  /** Joining the chunks gives back the response exactly. */
  lemma {:induction false} ChunksConcat(s: string)
    ensures Concat(Chunks(s)) == s
    decreases |s|
  {
    if |s| > 0 {
      var k := Min(SectionLimit, |s|);
      ChunksUnfold(s);
      ChunksConcat(s[k..]);
      assert Chunks(s)[1..] == Chunks(s[k..]);
      assert s == s[..k] + s[k..];
    }
  }

  /** One section block per chunk, in order. */
  function Sections(cs: seq<string>): seq<Block> {
    seq(|cs|, i requires 0 <= i < |cs| => Section(cs[i]))
  }

  /** The blocks one response contributes: a divider, then its sections. */
  function Group(r: string): seq<Block> {
    [Divider] + Sections(Chunks(r))
  }

  /** 1 + ceil(L / 3000) blocks per response of length L. */
  function BlockCount(rs: seq<string>): nat {
    if rs == [] then 0 else 1 + CeilDiv(|rs[0]|, SectionLimit) + BlockCount(rs[1..])
  }

  function DividerCount(bs: seq<Block>): nat {
    if bs == [] then 0 else (if bs[0].Divider? then 1 else 0) + DividerCount(bs[1..])
  }

  lemma {:induction false} DividerCountAppend(a: seq<Block>, b: seq<Block>)
    ensures DividerCount(a + b) == DividerCount(a) + DividerCount(b)
    decreases |a|
  {
    if a == [] {
      assert a + b == b;
    } else {
      assert (a + b)[1..] == a[1..] + b;
      DividerCountAppend(a[1..], b);
    }
  }

  lemma {:induction false} SectionsHaveNoDivider(cs: seq<string>)
    ensures DividerCount(Sections(cs)) == 0
    decreases |cs|
  {
    if cs != [] {
      assert Sections(cs)[1..] == Sections(cs[1..]);
      SectionsHaveNoDivider(cs[1..]);
    }
  }

  /** The groups of all responses, in input order. */
  function Groups(rs: seq<string>): (bs: seq<Block>)
    ensures |bs| == BlockCount(rs)
    ensures DividerCount(bs) == |rs|
    ensures bs != [] ==> bs[0] == Divider
    ensures forall i :: 0 <= i < |bs| && bs[i].Section? ==> 0 < |bs[i].text| <= SectionLimit
  {
    if rs == [] then []
    else
      SectionsHaveNoDivider(Chunks(rs[0]));
      DividerCountAppend([Divider], Sections(Chunks(rs[0])));
      DividerCountAppend(Group(rs[0]), Groups(rs[1..]));
      Group(rs[0]) + Groups(rs[1..])
  }

  /** `format_response`: the groups of every response, then a closing divider. */
  function FormatResponse(rs: Responses): (bs: seq<Block>)
    ensures |bs| == 1 + BlockCount(AsList(rs))
    ensures bs[|bs| - 1] == Divider
    ensures DividerCount(bs) == |AsList(rs)| + 1
    ensures forall i :: 0 <= i < |bs| && bs[i].Section? ==> 0 < |bs[i].text| <= SectionLimit
  {
    DividerCountAppend(Groups(AsList(rs)), [Divider]);
    Groups(AsList(rs)) + [Divider]
  }

  /** Texts of the leading run of section blocks, joined. */
  function LeadingText(bs: seq<Block>): string {
    if bs == [] || bs[0].Divider? then [] else bs[0].text + LeadingText(bs[1..])
  }

  /** What follows the leading run of section blocks. */
  function AfterLeading(bs: seq<Block>): (rest: seq<Block>)
    ensures |rest| <= |bs|
  {
    if bs == [] || bs[0].Divider? then bs else AfterLeading(bs[1..])
  }

  /** Reads divider-led groups back into the text of each group. */
  function ParseGroups(bs: seq<Block>): seq<string>
    decreases |bs|
  {
    if bs == [] then [] else [LeadingText(bs[1..])] + ParseGroups(AfterLeading(bs[1..]))
  }

  /** Reads a formatted message back into the responses it was built from. */
  function Unformat(bs: seq<Block>): seq<string> {
    if bs == [] then [] else ParseGroups(bs[..|bs| - 1])
  }

  lemma {:induction false} SectionsThenRest(cs: seq<string>, rest: seq<Block>)
    requires rest == [] || rest[0] == Divider
    ensures LeadingText(Sections(cs) + rest) == Concat(cs)
    ensures AfterLeading(Sections(cs) + rest) == rest
    decreases |cs|
  {
    if cs == [] {
      assert Sections(cs) + rest == rest;
    } else {
      assert (Sections(cs) + rest)[1..] == Sections(cs[1..]) + rest;
      SectionsThenRest(cs[1..], rest);
    }
  }

  lemma {:induction false} ParseGroupsInverse(rs: seq<string>)
    ensures ParseGroups(Groups(rs)) == rs
    decreases |rs|
  {
    if rs != [] {
      var tail := Groups(rs[1..]);
      ParseGroupsStep(rs);
      SectionsThenRest(Chunks(rs[0]), tail);
      ChunksConcat(rs[0]);
      ParseGroupsInverse(rs[1..]);
      assert rs == [rs[0]] + rs[1..];
    }
  }

  /** Reading the groups starts with the sections of the first response. */
  lemma ParseGroupsStep(rs: seq<string>)
    requires rs != []
    ensures var rest := Sections(Chunks(rs[0])) + Groups(rs[1..]);
            ParseGroups(Groups(rs)) == [LeadingText(rest)] + ParseGroups(AfterLeading(rest))
  {
    var rest := Sections(Chunks(rs[0])) + Groups(rs[1..]);
    GroupsUnfold(rs);
    ParseGroupsCons(Divider, rest);
  }

  lemma GroupsUnfold(rs: seq<string>)
    requires rs != []
    ensures Groups(rs) == [Divider] + (Sections(Chunks(rs[0])) + Groups(rs[1..]))
  {
  }

  lemma ParseGroupsCons(b: Block, rest: seq<Block>)
    ensures ParseGroups([b] + rest) == [LeadingText(rest)] + ParseGroups(AfterLeading(rest))
  {
    assert ([b] + rest)[1..] == rest;
  }

  /** Round trip: the formatted blocks determine the responses, each one recovered
      exactly by joining the sections of its group. */
  lemma FormatResponseRoundTrip(rs: Responses)
    ensures Unformat(FormatResponse(rs)) == AsList(rs)
  {
    var bs := FormatResponse(rs);
    assert bs[..|bs| - 1] == Groups(AsList(rs));
    ParseGroupsInverse(AsList(rs));
  }
}
