/** What the two scans read off a commit message, on the characters of the message as written. */
module CommitText {
  import opened Common
  import opened CommitScanner
  import opened PushHook

  /** "tg-" in either case, followed by a digit. */
  predicate StartsMention(m: string, i: nat) {
    i + 3 < |m| && (m[i] == 't' || m[i] == 'T') && (m[i + 1] == 'g' || m[i + 1] == 'G') && m[i + 2] == '-'
    && '0' <= m[i + 3] <= '9'
  }

  /** The longest run of digits from position i. */
  function DigitRun(m: string, i: nat): string
    requires i <= |m|
    decreases |m| - i
  {
    if i < |m| && '0' <= m[i] <= '9' then [m[i]] + DigitRun(m, i + 1) else ""
  }

  /** One text per position from i on where a mention starts. */
  function MentionTexts(m: string, i: nat): seq<string>
    requires i <= |m|
    decreases |m| - i
  {
    if i == |m| then []
    else (if StartsMention(m, i) then [DigitRun(m, i + 3)] else []) + MentionTexts(m, i + 1)
  }

  predicate SlugChar(c: char) {
    c == '-' || c == '_' || '0' <= c <= '9' || 'a' <= c <= 'z' || 'A' <= c <= 'Z'
  }

  /** A status command: its mention, spaces, a hash sign and the longest run of slug characters. */
  ghost predicate IsCommand(m: string, c: Command) {
    && StartsMention(m, c.start)
    && c.start + 3 < c.refEnd && c.refEnd + 1 < c.slugStart < c.end <= |m|
    && (forall k | c.start + 3 <= k < c.refEnd :: '0' <= m[k] <= '9')
    && (forall k | c.refEnd <= k < c.slugStart - 1 :: m[k] == ' ')
    && m[c.slugStart - 1] == '#'
    && (forall k | c.slugStart <= k < c.end :: SlugChar(m[k]))
    && (c.end < |m| ==> !SlugChar(m[c.end]))
  }

  /** From a position on: the first span is the leftmost one that fits, and the rest are found
      likewise from its end on. */
  ghost predicate Leftmost(fits: Command -> bool, from: nat, found: seq<Command>)
    decreases |found|
  {
    if found == [] then forall c | fits(c) :: c.start < from
    else
      && fits(found[0]) && from <= found[0].start
      && (forall c | fits(c) && from <= c.start :: found[0].start <= c.start)
      && Leftmost(fits, found[0].end, found[1..])
  }

  ghost function CommandOf(m: string): Command -> bool {
    c => IsCommand(m, c)
  }

  /** The commands of a message, leftmost first and without overlap. */
  ghost predicate LeftmostCommands(m: string, found: seq<Command>) {
    Leftmost(CommandOf(m), 0, found)
  }

  ghost predicate IsLowerOf(lower: string, text: string) {
    && |lower| == |text|
    && forall k | 0 <= k < |text| ::
         lower[k] as int == if 'A' <= text[k] <= 'Z' then text[k] as int + 32 else text[k] as int
  }

  // ---------- mentions ----------

  lemma LowerKeeps(m: string, i: nat)
    requires i < |m|
    ensures |Lower(m)| == |m|
    ensures IsDigit(Lower(m)[i]) <==> '0' <= m[i] <= '9'
    ensures IsDigit(Lower(m)[i]) ==> Lower(m)[i] == m[i]
    ensures IsSpace(Lower(m)[i]) <==> m[i] == ' '
    ensures Lower(m)[i] == '#' <==> m[i] == '#'
    ensures Lower(m)[i] == '-' <==> m[i] == '-'
    ensures Lower(m)[i] == 't' <==> m[i] == 't' || m[i] == 'T'
    ensures Lower(m)[i] == 'g' <==> m[i] == 'g' || m[i] == 'G'
    ensures IsSlug(Lower(m)[i]) <==> SlugChar(m[i])
  {
  }

  lemma MentionStarts(m: string, i: nat)
    ensures MentionAt(Lower(m), i).Some? <==> StartsMention(m, i)
    ensures StartsMention(m, i) ==> MentionAt(Lower(m), i).value == Mention(i, RunEnd(Lower(m), i + 3, IsDigit))
  {
    if i + 3 < |m| {
      LowerKeeps(m, i);
      LowerKeeps(m, i + 1);
      LowerKeeps(m, i + 2);
      LowerKeeps(m, i + 3);
    }
  }

  lemma {:induction false} DigitRunIs(m: string, i: nat)
    requires i <= |m|
    ensures DigitRun(m, i) == Lower(m)[i..RunEnd(Lower(m), i, IsDigit)]
    decreases |m| - i
  {
    if i < |m| {
      LowerKeeps(m, i);
      if IsDigit(Lower(m)[i]) {
        DigitRunIs(m, i + 1);
        assert RunEnd(Lower(m), i, IsDigit) == RunEnd(Lower(m), i + 1, IsDigit);
        assert Lower(m)[i..RunEnd(Lower(m), i, IsDigit)]
            == [Lower(m)[i]] + Lower(m)[i + 1..RunEnd(Lower(m), i + 1, IsDigit)];
      }
    }
  }

  lemma {:induction false} SkipTexts(m: string, i: nat, j: nat)
    requires i <= j <= |m| && forall k | i <= k < j :: !StartsMention(m, k)
    ensures MentionTexts(m, i) == MentionTexts(m, j)
    decreases j - i
  {
    if i < j {
      SkipTexts(m, i + 1, j);
    }
  }

  lemma NothingInside(m: string, i: nat, end: nat)
    requires StartsMention(m, i) && end == RunEnd(Lower(m), i + 3, IsDigit)
    ensures i + 3 < end <= |m| && forall k | i < k < end :: !StartsMention(m, k)
  {
    LowerKeeps(m, i + 3);
    forall k | i < k < end ensures !StartsMention(m, k) {
      LowerKeeps(m, k);
      assert k >= i + 3 ==> IsDigit(Lower(m)[k]);
    }
  }

  function RefsFrom(s: string, from: nat): seq<string>
    requires from <= |s|
  {
    var ms := Mentions(s, from);
    seq(|ms|, i requires 0 <= i < |ms| => RefOfMention(s, ms[i]))
  }

  lemma RefsFromFound(s: string, from: nat, m: Mention)
    requires from < |s| && MentionAt(s, from) == Some(m)
    ensures m.end <= |s| && RefsFrom(s, from) == [RefOfMention(s, m)] + RefsFrom(s, m.end)
  {
    assert Mentions(s, from) == [m] + Mentions(s, m.end);
  }

  lemma RefsFromNone(s: string, from: nat)
    requires from < |s| && MentionAt(s, from) == None
    ensures RefsFrom(s, from) == RefsFrom(s, from + 1)
  {
  }

  lemma OneMention(m: string, i: nat, end: nat)
    requires StartsMention(m, i) && end == RunEnd(Lower(m), i + 3, IsDigit)
    ensures i < end <= |m| && MentionTexts(m, i) == [DigitRun(m, i + 3)] + MentionTexts(m, end)
    ensures RefsFrom(Lower(m), i) == [DigitRun(m, i + 3)] + RefsFrom(Lower(m), end)
  {
    NothingInside(m, i, end);
    SkipTexts(m, i + 1, end);
    DigitRunIs(m, i + 3);
    MentionStarts(m, i);
    RefsFromFound(Lower(m), i, Mention(i, end));
  }

  lemma {:induction false} RefsAreTexts(m: string, from: nat)
    requires from <= |m|
    ensures RefsFrom(Lower(m), from) == MentionTexts(m, from)
    decreases |m| - from
  {
    if from < |m| {
      if StartsMention(m, from) {
        OneMention(m, from, RunEnd(Lower(m), from + 3, IsDigit));
        RefsAreTexts(m, RunEnd(Lower(m), from + 3, IsDigit));
      } else {
        MentionStarts(m, from);
        RefsFromNone(Lower(m), from);
        RefsAreTexts(m, from + 1);
      }
    }
  }

  /** The mentions of a message: the longest digit run at every position where "tg-" in either case
      is followed by a digit, in order. */
  lemma MentionsOfText(message: string)
    ensures Scan(message).mentions == MentionTexts(message, 0)
  {
    RefsAreTexts(message, 0);
    assert MentionRefs(Lower(message)) == RefsFrom(Lower(message), 0);
  }

  // ---------- commands ----------

  lemma CommandRead(m: string, c: Command)
    requires CommandAt(Lower(m), c.start) == Some(c)
    ensures IsCommand(m, c)
  {
    var s := Lower(m);
    MentionStarts(m, c.start);
    LowerKeeps(m, c.start + 3);
    var hash := RunEnd(s, c.refEnd, IsSpace);
    forall k | c.start + 3 <= k < c.refEnd ensures '0' <= m[k] <= '9' {
      LowerKeeps(m, k);
    }
    forall k | c.refEnd <= k < hash ensures m[k] == ' ' {
      LowerKeeps(m, k);
    }
    LowerKeeps(m, hash);
    forall k | c.slugStart <= k < c.end ensures SlugChar(m[k]) {
      LowerKeeps(m, k);
    }
    if c.end < |m| {
      LowerKeeps(m, c.end);
    }
  }

  lemma DigitsEnd(m: string, i: nat, j: nat)
    requires i <= j <= |m| && (forall k | i <= k < j :: '0' <= m[k] <= '9') && (j < |m| ==> m[j] == ' ')
    ensures RunEnd(Lower(m), i, IsDigit) == j
  {
    forall k | i <= k < j ensures IsDigit(Lower(m)[k]) {
      LowerKeeps(m, k);
    }
    if j < |m| {
      LowerKeeps(m, j);
    }
    RunIsLongest(Lower(m), i, IsDigit, j);
  }

  lemma SpacesEnd(m: string, i: nat, j: nat)
    requires i <= j < |m| && (forall k | i <= k < j :: m[k] == ' ') && m[j] == '#'
    ensures RunEnd(Lower(m), i, IsSpace) == j && Lower(m)[j] == '#'
  {
    forall k | i <= k < j ensures IsSpace(Lower(m)[k]) {
      LowerKeeps(m, k);
    }
    LowerKeeps(m, j);
    RunIsLongest(Lower(m), i, IsSpace, j);
  }

  lemma SlugEnd(m: string, i: nat, j: nat)
    requires i <= j <= |m| && (forall k | i <= k < j :: SlugChar(m[k])) && (j < |m| ==> !SlugChar(m[j]))
    ensures RunEnd(Lower(m), i, IsSlug) == j
  {
    forall k | i <= k < j ensures IsSlug(Lower(m)[k]) {
      LowerKeeps(m, k);
    }
    if j < |m| {
      LowerKeeps(m, j);
    }
    RunIsLongest(Lower(m), i, IsSlug, j);
  }

  lemma CommandWritten(m: string, c: Command)
    requires IsCommand(m, c)
    ensures CommandAt(Lower(m), c.start) == Some(c)
  {
    MentionStarts(m, c.start);
    DigitsEnd(m, c.start + 3, c.refEnd);
    SpacesEnd(m, c.refEnd, c.slugStart - 1);
    SlugEnd(m, c.slugStart, c.end);
    CommandFrom(Lower(m), c);
  }

  lemma CommandFrom(s: string, c: Command)
    requires MentionAt(s, c.start) == Some(Mention(c.start, c.refEnd))
    requires c.refEnd + 1 < c.slugStart < c.end <= |s| && RunEnd(s, c.refEnd, IsSpace) == c.slugStart - 1
    requires s[c.slugStart - 1] == '#' && RunEnd(s, c.slugStart, IsSlug) == c.end
    ensures CommandAt(s, c.start) == Some(c)
  {
  }

  lemma NoneHere(m: string, from: nat)
    requires CommandAt(Lower(m), from) == None
    ensures forall c | CommandOf(m)(c) :: c.start != from
  {
    forall c | CommandOf(m)(c) ensures c.start != from {
      CommandWritten(m, c);
    }
  }

  lemma KnownByStart(m: string)
    ensures forall c, d | CommandOf(m)(c) && CommandOf(m)(d) && c.start == d.start :: c == d
  {
    forall c, d | CommandOf(m)(c) && CommandOf(m)(d) && c.start == d.start ensures c == d {
      CommandWritten(m, c);
      CommandWritten(m, d);
    }
  }

  lemma LeftmostLater(fits: Command -> bool, from: nat, found: seq<Command>)
    requires Leftmost(fits, from + 1, found) && forall c | fits(c) :: c.start != from
    ensures Leftmost(fits, from, found)
  {
  }

  lemma LeftmostHere(fits: Command -> bool, f: Command, rest: seq<Command>)
    requires fits(f) && Leftmost(fits, f.end, rest)
    ensures Leftmost(fits, f.start, [f] + rest)
  {
    assert ([f] + rest)[1..] == rest;
  }

  lemma NothingAfterEnd(m: string)
    ensures forall c | CommandOf(m)(c) :: c.start < |m|
  {
  }

  /** The scanner finds the commands of the definition. */
  lemma {:induction false} FoundAreLeftmost(m: string, from: nat)
    requires from <= |m|
    ensures Leftmost(CommandOf(m), from, Commands(Lower(m), from))
    decreases |m| - from
  {
    if from == |m| {
      NothingAfterEnd(m);
    } else {
      match CommandAt(Lower(m), from)
      case None =>
        NoneHere(m, from);
        FoundAreLeftmost(m, from + 1);
        LeftmostLater(CommandOf(m), from, Commands(Lower(m), from + 1));
      case Some(f) =>
        CommandRead(m, f);
        FoundAreLeftmost(m, f.end);
        LeftmostHere(CommandOf(m), f, Commands(Lower(m), f.end));
    }
  }

  /** There is only one such sequence from each position when a span is known by its start. */
  lemma {:induction false} LeftmostIsUnique(fits: Command -> bool, from: nat, found: seq<Command>, other: seq<Command>)
    requires forall c, d | fits(c) && fits(d) && c.start == d.start :: c == d
    requires Leftmost(fits, from, found) && Leftmost(fits, from, other)
    ensures found == other
    decreases |found|
  {
    if found != [] && other != [] {
      LeftmostIsUnique(fits, found[0].end, found[1..], other[1..]);
      assert found == [found[0]] + found[1..] && other == [other[0]] + other[1..];
    }
  }

  /** The commands of a message are exactly its leftmost commands, in order: each with its digits and
      its slug in lower case. */
  lemma CommandsOfText(message: string, found: seq<Command>, k: nat)
    requires LeftmostCommands(message, found)
    ensures |Scan(message).commands| == |found|
    ensures k < |found| ==>
      && IsCommand(message, found[k])
      && Scan(message).commands[k].ref == message[found[k].start + 3..found[k].refEnd]
      && IsLowerOf(Scan(message).commands[k].slug, message[found[k].slugStart..found[k].end])
  {
    FoundAreThese(message, found);
    if k < |found| {
      LeftmostAt(CommandOf(message), 0, found, k);
      TextsOfCommand(message, found[k]);
    }
  }

  lemma FoundAreThese(m: string, found: seq<Command>)
    requires LeftmostCommands(m, found)
    ensures Commands(Lower(m), 0) == found
  {
    FoundAreLeftmost(m, 0);
    KnownByStart(m);
    LeftmostIsUnique(CommandOf(m), 0, found, Commands(Lower(m), 0));
  }

  lemma {:induction false} LeftmostAt(fits: Command -> bool, from: nat, found: seq<Command>, k: nat)
    requires Leftmost(fits, from, found) && k < |found|
    ensures fits(found[k])
    decreases k
  {
    if k > 0 {
      LeftmostAt(fits, found[0].end, found[1..], k - 1);
    }
  }

  lemma TextsOfCommand(m: string, c: Command)
    requires IsCommand(m, c)
    ensures RefOfCommand(Lower(m), c) == m[c.start + 3..c.refEnd]
    ensures IsLowerOf(SlugOfCommand(Lower(m), c), m[c.slugStart..c.end])
  {
    forall k | c.start + 3 <= k < c.refEnd ensures Lower(m)[k] == m[k] {
      LowerKeeps(m, k);
    }
  }

  /** Every message has such a sequence, so the previous lemma speaks of every message. */
  lemma CommandsExist(message: string)
    ensures exists found :: LeftmostCommands(message, found)
  {
    FoundAreLeftmost(message, 0);
    assert LeftmostCommands(message, Commands(Lower(message), 0));
  }

  /** The commits of a push are scanned one by one, in order. */
  lemma CommitsInOrder(messages: seq<string>, i: nat)
    ensures |ScanAll(messages)| == |messages|
    ensures i < |messages| ==> ScanAll(messages)[i] == Scan(messages[i])
  {
  }
}
