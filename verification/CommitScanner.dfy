/** The two regular expressions of the push hook as scanners over lower-cased ASCII text:
    `tg-(\d+)` and `tg-(\d+) +#([-\w]+)`, matched leftmost, greedily and without overlap. */
module CommitScanner {
  import opened Common

  datatype Mention = Mention(start: nat, end: nat)

  /** `slugStart` is the position after the hash sign. */
  datatype Command = Command(start: nat, refEnd: nat, slugStart: nat, end: nat)

  predicate IsSpace(c: char) {
    c == ' '
  }

  predicate IsSlug(c: char) {
    c == '-' || c == '_' || IsDigit(c) || 'a' <= c <= 'z' || 'A' <= c <= 'Z'
  }

  function LowerChar(c: char): char {
    if 'A' <= c <= 'Z' then (c as int + 32) as char else c
  }

  function Lower(s: string): string {
    seq(|s|, i requires 0 <= i < |s| => LowerChar(s[i]))
  }

  /** The end of the longest run of `p` from position i. */
  function RunEnd(s: string, i: nat, p: char -> bool): (j: nat)
    requires i <= |s|
    ensures i <= j <= |s|
    ensures forall k | i <= k < j :: p(s[k])
    ensures j < |s| ==> !p(s[j])
    decreases |s| - i
  {
    if i < |s| && p(s[i]) then RunEnd(s, i + 1, p) else i
  }

  predicate PrefixAt(s: string, i: nat) {
    i + 3 <= |s| && s[i] == 't' && s[i + 1] == 'g' && s[i + 2] == '-'
  }

  function MentionAt(s: string, i: nat): Option<Mention> {
    if PrefixAt(s, i) && i + 3 < |s| && IsDigit(s[i + 3])
    then Some(Mention(i, RunEnd(s, i + 3, IsDigit)))
    else None
  }

  function CommandAt(s: string, i: nat): Option<Command> {
    match MentionAt(s, i)
    case None => None
    case Some(m) =>
      var hash := RunEnd(s, m.end, IsSpace);
      if m.end < hash < |s| && s[hash] == '#' then
        var end := RunEnd(s, hash + 1, IsSlug);
        if hash + 1 < end then Some(Command(i, m.end, hash + 1, end)) else None
      else None
  }

  function Mentions(s: string, from: nat): seq<Mention>
    requires from <= |s|
    decreases |s| - from
  {
    if from == |s| then []
    else
      match MentionAt(s, from)
      case None => Mentions(s, from + 1)
      case Some(m) => [m] + Mentions(s, m.end)
  }

  function Commands(s: string, from: nat): seq<Command>
    requires from <= |s|
    decreases |s| - from
  {
    if from == |s| then []
    else
      match CommandAt(s, from)
      case None => Commands(s, from + 1)
      case Some(c) => [c] + Commands(s, c.end)
  }

  // ---------- what the expressions denote ----------

  /** s[i..end] is in the language of `tg-\d+`. */
  ghost predicate MatchesMention(s: string, i: nat, end: nat) {
    && PrefixAt(s, i) && i + 3 < end <= |s|
    && forall k | i + 3 <= k < end :: IsDigit(s[k])
  }

  /** s[i..end] is in the language of `tg-\d+ +#[-\w]+`, its groups ending at a and starting
      after the hash at h. */
  ghost predicate MatchesCommand(s: string, i: nat, a: nat, h: nat, end: nat) {
    && MatchesMention(s, i, a)
    && a < h && h + 1 < end <= |s|
    && (forall k | a <= k < h :: IsSpace(s[k]))
    && s[h] == '#'
    && forall k | h + 1 <= k < end :: IsSlug(s[k])
  }

  lemma RunIsLongest(s: string, i: nat, p: char -> bool, j: nat)
    requires i <= j <= |s|
    requires forall k | i <= k < j :: p(s[k])
    ensures j <= RunEnd(s, i, p)
    ensures j == |s| || !p(s[j]) ==> j == RunEnd(s, i, p)
  {
    var r := RunEnd(s, i, p);
    assert r < |s| ==> !p(s[r]);
    assert forall k | i <= k < r :: p(s[k]);
  }

  /** The matcher finds a match exactly where one exists, and the longest one. */
  lemma MentionAtIsGreedy(s: string, i: nat, end: nat)
    ensures MatchesMention(s, i, end) ==>
              MentionAt(s, i).Some? && MentionAt(s, i).value.start == i && end <= MentionAt(s, i).value.end
    ensures MentionAt(s, i).Some? ==> MatchesMention(s, i, MentionAt(s, i).value.end)
  {
    if MatchesMention(s, i, end) {
      RunIsLongest(s, i + 3, IsDigit, end);
    }
  }

  /** Greedy matching loses nothing here: every match at a position has the same ref and the
      same slug start as the one found, and a slug no longer than the one found. */
  lemma CommandAtIsGreedy(s: string, i: nat, a: nat, h: nat, end: nat)
    ensures MatchesCommand(s, i, a, h, end) ==>
              CommandAt(s, i).Some? && var c := CommandAt(s, i).value;
              c.start == i && c.refEnd == a && c.slugStart == h + 1 && end <= c.end
    ensures CommandAt(s, i).Some? ==>
              var c := CommandAt(s, i).value; 1 <= c.slugStart && MatchesCommand(s, i, c.refEnd, c.slugStart - 1, c.end)
  {
    if MatchesCommand(s, i, a, h, end) {
      assert IsSpace(s[a]) && !IsDigit(s[a]);
      RunIsLongest(s, i + 3, IsDigit, a);
      assert !IsSpace(s[h]);
      RunIsLongest(s, a, IsSpace, h);
      RunIsLongest(s, h + 1, IsSlug, end);
    }
  }

  /** finditer on `tg-(\d+)` yields, in order, exactly the positions where a match exists. */
  lemma {:induction false} MentionsExactly(s: string, from: nat, p: nat)
    requires from <= |s|
    ensures forall m | m in Mentions(s, from) :: from <= m.start && MentionAt(s, m.start) == Some(m)
    ensures from <= p && MentionAt(s, p).Some? ==> MentionAt(s, p).value in Mentions(s, from)
    ensures forall j, k | 0 <= j < k < |Mentions(s, from)| ::
              Mentions(s, from)[j].end <= Mentions(s, from)[k].start
    decreases |s| - from
  {
    if from < |s| {
      match MentionAt(s, from) {
        case None => MentionsExactly(s, from + 1, p);
        case Some(m) =>
          MentionsExactly(s, m.end, p);
          assert PrefixAt(s, p) && from < p < m.end ==> p == from + 1 || p == from + 2 || IsDigit(s[p]);
      }
    }
  }

  lemma {:induction false} CommandsFound(s: string, from: nat)
    requires from <= |s|
    ensures forall c | c in Commands(s, from) :: from <= c.start < c.end && CommandAt(s, c.start) == Some(c)
    decreases |s| - from
  {
    if from < |s| {
      match CommandAt(s, from)
      case None => CommandsFound(s, from + 1);
      case Some(c) => CommandsFound(s, c.end);
    }
  }

  lemma {:induction false} CommandsApart(s: string, from: nat, j: nat, k: nat)
    requires from <= |s| && j < k < |Commands(s, from)|
    ensures Commands(s, from)[j].end <= Commands(s, from)[k].start
    decreases |s| - from
  {
    match CommandAt(s, from)
    case None => CommandsApart(s, from + 1, j, k);
    case Some(c) =>
      if j > 0 {
        CommandsApart(s, c.end, j - 1, k - 1);
      } else {
        CommandsFound(s, c.end);
        assert Commands(s, from)[k] in Commands(s, c.end);
      }
  }

  ghost predicate Covers(commands: seq<Command>, p: nat) {
    exists c | c in commands :: c.start <= p < c.end
  }

  lemma {:induction false} CommandsCover(s: string, from: nat, p: nat)
    requires from <= p < |s| && CommandAt(s, p).Some?
    ensures Covers(Commands(s, from), p)
    decreases |s| - from
  {
    match CommandAt(s, from)
    case None => CommandsCover(s, from + 1, p);
    case Some(c) =>
      if p < c.end {
        assert c in [c] && Covers([c], p);
      } else {
        CommandsCover(s, c.end, p);
      }
      CoversMore([c], Commands(s, c.end), p);
  }

  lemma CoversMore(left: seq<Command>, right: seq<Command>, p: nat)
    ensures Covers(left + right, p) <==> Covers(left, p) || Covers(right, p)
  {
    assert forall c :: c in left + right <==> c in left || c in right;
  }

  /** finditer on the status expression yields matches from left to right without overlap, and
      every position where a match exists lies inside one of them. */
  lemma CommandsLeftmost(s: string, p: nat)
    ensures forall c | c in Commands(s, 0) :: c.start < c.end && CommandAt(s, c.start) == Some(c)
    ensures CommandAt(s, p).Some? ==> exists c | c in Commands(s, 0) :: c.start <= p < c.end
    ensures forall j, k | 0 <= j < k < |Commands(s, 0)| :: Commands(s, 0)[j].end <= Commands(s, 0)[k].start
  {
    CommandsFound(s, 0);
    forall j, k | 0 <= j < k < |Commands(s, 0)| ensures Commands(s, 0)[j].end <= Commands(s, 0)[k].start {
      CommandsApart(s, 0, j, k);
    }
    if CommandAt(s, p).Some? {
      CommandsCover(s, 0, p);
    }
  }

  // ---------- refs ----------

  function RefOfMention(s: string, m: Mention): string {
    if m.start + 3 <= m.end <= |s| then s[m.start + 3..m.end] else ""
  }

  function RefOfCommand(s: string, c: Command): string {
    if c.start + 3 <= c.refEnd <= |s| then s[c.start + 3..c.refEnd] else ""
  }

  function SlugOfCommand(s: string, c: Command): string {
    if c.slugStart <= c.end <= |s| then s[c.slugStart..c.end] else ""
  }

  function MentionRefs(s: string): seq<string> {
    var ms := Mentions(s, 0);
    seq(|ms|, i requires 0 <= i < |ms| => RefOfMention(s, ms[i]))
  }

  function CommandRefs(s: string): seq<string> {
    var cs := Commands(s, 0);
    seq(|cs|, i requires 0 <= i < |cs| => RefOfCommand(s, cs[i]))
  }

  lemma CommandHasMention(s: string, c: Command)
    requires c in Commands(s, 0)
    ensures Mention(c.start, c.refEnd) in Mentions(s, 0)
  {
    CommandsFound(s, 0);
    assert CommandAt(s, c.start) == Some(c);
    assert MentionAt(s, c.start) == Some(Mention(c.start, c.refEnd));
    MentionsExactly(s, 0, c.start);
  }

  /** Every status command starts where a mention starts, with the same ref; so the refs of
      status commands are among the mentioned refs, for every text. */
  lemma CommandRefsAreMentioned(s: string, ref: string)
    ensures ref in CommandRefs(s) ==> ref in MentionRefs(s)
  {
    if ref in CommandRefs(s) {
      var cs, ms := Commands(s, 0), Mentions(s, 0);
      var i :| 0 <= i < |cs| && CommandRefs(s)[i] == ref;
      CommandHasMention(s, cs[i]);
      var k :| 0 <= k < |ms| && ms[k] == Mention(cs[i].start, cs[i].refEnd);
      assert MentionRefs(s)[k] == ref;
    }
  }

  /** Mentioned refs are maximal digit runs, never empty. */
  lemma MentionRefsAreDigits(s: string, i: nat)
    requires i < |MentionRefs(s)|
    ensures var m := Mentions(s, 0)[i];
            && MentionRefs(s)[i] != "" && (forall c | c in MentionRefs(s)[i] :: IsDigit(c))
            && PrefixAt(s, m.start) && MentionRefs(s)[i] == s[m.start + 3..m.end]
            && (m.end < |s| ==> !IsDigit(s[m.end]))
  {
    MentionsExactly(s, 0, 0);
    assert Mentions(s, 0)[i] in Mentions(s, 0);
  }
}
