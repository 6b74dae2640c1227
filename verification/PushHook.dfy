/** What a push does to a project: status commands are applied in order, every mentioned item
    gets one history entry per commit. */
module PushHook {
  import opened Common
  import opened CommitScanner
  import Rates

  datatype Kind = Epic | Issue | Task | Story

  datatype Status = Status(slug: string, name: string)

  datatype Key = Key(kind: Kind, number: nat)

  /** The items of the project by kind and ref number; the status column is nullable. */
  type Items = map<Key, Option<Status>>

  /** The statuses of the project by kind and slug. */
  type Statuses = map<(Kind, string), Status>

  datatype Snapshot =
    | Changed(key: Key, src: string, dst: string)
    | Mentioned(key: Key, ref: string)

  datatype HookError = NoSuchItem | NoSuchStatus | NullStatus

  datatype StatusCommand = StatusCommand(ref: string, slug: string)

  datatype Board = Board(items: Items, history: seq<Snapshot>)

  datatype Outcome = Outcome(board: Board, error: Option<HookError>)

  /** Refs are looked up as numbers. */
  function RefNumber(ref: string): nat {
    if ref == "" then 0
    else
      var last := ref[|ref| - 1];
      10 * RefNumber(ref[..|ref| - 1]) + if IsDigit(last) then last as int - '0' as int else 0
  }

  /** Leading zeros make a different ref text for the same item. */
  lemma {:induction false} LeadingZero(ref: string)
    ensures RefNumber("0" + ref) == RefNumber(ref)
  {
    if ref == "" {
      assert ("0" + ref)[..0] == "";
    } else {
      var n := |ref| - 1;
      assert ("0" + ref)[..n + 1] == "0" + ref[..n];
      LeadingZero(ref[..n]);
    }
  }

  /** The number of an item, written out, names that item. */
  lemma {:induction false} RefNumberOfDecimal(n: nat)
    ensures RefNumber(Rates.Decimal(n)) == n
  {
    var s := Rates.Decimal(n);
    if n < 10 {
      assert s[..0] == "";
    } else {
      assert s[..|s| - 1] == Rates.Decimal(n / 10);
      RefNumberOfDecimal(n / 10);
    }
  }

  /** get_item_classes tries the four kinds in this order. */
  function FindItem(items: Items, number: nat): Option<Key> {
    if Key(Epic, number) in items then Some(Key(Epic, number))
    else if Key(Issue, number) in items then Some(Key(Issue, number))
    else if Key(Task, number) in items then Some(Key(Task, number))
    else if Key(Story, number) in items then Some(Key(Story, number))
    else None
  }

  function Rank(kind: Kind): nat {
    match kind
    case Epic => 0
    case Issue => 1
    case Task => 2
    case Story => 3
  }

  /** A number finds an item exactly when it is the first of the four kinds that has the number. */
  lemma FoundFirst(items: Items, number: nat, key: Key)
    ensures FindItem(items, number) == Some(key)
        <==> key in items && key.number == number
             && forall kind | Rank(kind) < Rank(key.kind) :: Key(kind, number) !in items
    ensures FindItem(items, number) == None <==> forall kind :: Key(kind, number) !in items
  {
    assert Rank(Epic) < Rank(Issue) < Rank(Task) < Rank(Story);
    forall kind | FindItem(items, number) == None ensures Key(kind, number) !in items {
      match kind
      case Epic =>
      case Issue =>
      case Task =>
      case Story =>
    }
    assert key.number == number ==> key == Key(key.kind, number);
  }

  /** A commit message as the two scans see it. */
  datatype Scanned = Scanned(commands: seq<StatusCommand>, mentions: seq<string>)

  function CommandsIn(s: string): seq<StatusCommand> {
    var cs := Commands(s, 0);
    seq(|cs|, i requires 0 <= i < |cs| => StatusCommand(RefOfCommand(s, cs[i]), SlugOfCommand(s, cs[i])))
  }

  function Scan(message: string): Scanned {
    Scanned(CommandsIn(Lower(message)), MentionRefs(Lower(message)))
  }

  function ScanAll(messages: seq<string>): seq<Scanned> {
    seq(|messages|, i requires 0 <= i < |messages| => Scan(messages[i]))
  }

  function RefsOf(cmds: seq<StatusCommand>): seq<string> {
    seq(|cmds|, i requires 0 <= i < |cmds| => cmds[i].ref)
  }

  /** An item a commit commands is one it mentions, whatever the case of the message. */
  lemma CommandedIsMentioned(message: string, ref: string)
    requires ref in RefsOf(Scan(message).commands)
    ensures ref in Scan(message).mentions
  {
    var s := Lower(message);
    assert RefsOf(CommandsIn(s)) == CommandRefs(s);
    CommandRefsAreMentioned(s, ref);
  }

  // ---------- the steps ----------

  function ApplyCommand(statuses: Statuses, b: Board, cmd: StatusCommand): Outcome {
    match FindItem(b.items, RefNumber(cmd.ref))
    case None => Outcome(b, Some(NoSuchItem))
    case Some(key) =>
      if (key.kind, cmd.slug) !in statuses then Outcome(b, Some(NoSuchStatus))
      else if key !in b.items || b.items[key] == None then Outcome(b, Some(NullStatus))
      else
        var status := statuses[(key.kind, cmd.slug)];
        Outcome(Board(b.items[key := Some(status)],
                      b.history + [Changed(key, b.items[key].value.name, status.name)]), None)
  }

  /** One command: without an item of the number, without the status among those of the item's kind,
      or on an item whose status is null it raises, in this order, and changes nothing. */
  lemma CommandAnswers(statuses: Statuses, b: Board, cmd: StatusCommand, number: nat, key: Key, other: Key)
    requires number == RefNumber(cmd.ref)
    ensures var o := ApplyCommand(statuses, b, cmd);
            && (o.error == Some(NoSuchItem) <==> forall kind :: Key(kind, number) !in b.items)
            && (o.error.Some? ==> o.board == b)
            && (FindItem(b.items, number) == Some(key) ==>
                  && key in b.items
                  && o.error == (if (key.kind, cmd.slug) !in statuses then Some(NoSuchStatus)
                                 else if b.items[key] == None then Some(NullStatus) else None)
                  && (o.error == None ==>
                        && key in o.board.items && o.board.items[key] == Some(statuses[(key.kind, cmd.slug)])
                        && (other != key ==> (other in o.board.items <==> other in b.items))
                        && (other != key && other in b.items ==> o.board.items[other] == b.items[other])))
  {
    FoundFirst(b.items, number, key);
  }

  function ApplyCommands(statuses: Statuses, b: Board, cmds: seq<StatusCommand>): Outcome {
    if cmds == [] then Outcome(b, None)
    else
      var before := ApplyCommands(statuses, b, cmds[..|cmds| - 1]);
      if before.error.Some? then before
      else ApplyCommand(statuses, before.board, cmds[|cmds| - 1])
  }

  function ApplyMention(b: Board, ref: string): Outcome {
    match FindItem(b.items, RefNumber(ref))
    case None => Outcome(b, Some(NoSuchItem))
    case Some(key) => Outcome(b.(history := b.history + [Mentioned(key, ref)]), None)
  }

  /** The refs still to be mentioned, in order of first occurrence. */
  function Unconsumed(refs: seq<string>, consumed: seq<string>): seq<string> {
    if refs == [] then []
    else
      var before := Unconsumed(refs[..|refs| - 1], consumed);
      var ref := refs[|refs| - 1];
      if ref in consumed || ref in before then before else before + [ref]
  }

  function ApplyMentions(b: Board, refs: seq<string>): Outcome {
    if refs == [] then Outcome(b, None)
    else
      var before := ApplyMentions(b, refs[..|refs| - 1]);
      if before.error.Some? then before else ApplyMention(before.board, refs[|refs| - 1])
  }

  lemma UnconsumedNext(refs: seq<string>, consumed: seq<string>, i: nat)
    requires i < |refs|
    ensures var before := Unconsumed(refs[..i], consumed);
            Unconsumed(refs[..i + 1], consumed)
            == if refs[i] in consumed || refs[i] in before then before else before + [refs[i]]
  {
    assert refs[..i + 1][..i] == refs[..i];
  }

  lemma MentionedNext(b: Board, refs: seq<string>, ref: string)
    requires ApplyMentions(b, refs).error.None?
    ensures ApplyMentions(b, refs + [ref]) == ApplyMention(ApplyMentions(b, refs).board, ref)
  {
    assert (refs + [ref])[..|refs|] == refs;
  }

  function ApplyCommit(statuses: Statuses, b: Board, commit: Scanned): Outcome {
    var changed := ApplyCommands(statuses, b, commit.commands);
    if changed.error.Some? then changed
    else ApplyMentions(changed.board, Unconsumed(commit.mentions, RefsOf(commit.commands)))
  }

  function ApplyPush(statuses: Statuses, b: Board, commits: seq<Scanned>): Outcome {
    if commits == [] then Outcome(b, None)
    else
      var before := ApplyPush(statuses, b, commits[..|commits| - 1]);
      if before.error.Some? then before
      else ApplyCommit(statuses, before.board, commits[|commits| - 1])
  }

  class EventHook {
    const statuses: Statuses
    var items: Items
    var history: seq<Snapshot>

    function State(): Board
      reads this
    {
      Board(items, history)
    }

    constructor (statuses: Statuses, items: Items)
      ensures this.statuses == statuses && State() == Board(items, [])
    {
      this.statuses, this.items, this.history := statuses, items, [];
    }

    method SetItemStatus(ref: string, slug: string) returns (changed: Result<(Key, string, string), HookError>)
      modifies this`items
      ensures var o := ApplyCommand(statuses, old(State()), StatusCommand(ref, slug));
              && items == o.board.items
              && (match changed
                  case Err(e) => o.error == Some(e)
                  case Ok((key, src, dst)) => o.error == None && o.board.history == history + [Changed(key, src, dst)])
    {
      var found := FindItem(items, RefNumber(ref));
      if found.None? {
        return Err(NoSuchItem);
      }
      var key := found.value;
      if (key.kind, slug) !in statuses {
        return Err(NoSuchStatus);
      }
      var status := statuses[(key.kind, slug)];
      if items[key].None? {
        return Err(NullStatus);
      }
      var src := items[key].value.name;
      items := items[key := Some(status)];
      return Ok((key, src, status.name));
    }

    /** The first loop over one commit; `consumed` lists the refs it handled. */
    method ChangeStatuses(cmds: seq<StatusCommand>) returns (consumed: seq<string>, error: Option<HookError>)
      modifies this
      ensures Outcome(State(), error) == ApplyCommands(statuses, old(State()), cmds)
      ensures error.None? ==> consumed == RefsOf(cmds)
    {
      consumed := [];
      for i := 0 to |cmds|
        invariant Outcome(State(), None) == ApplyCommands(statuses, old(State()), cmds[..i])
        invariant consumed == RefsOf(cmds[..i])
      {
        assert cmds[..i + 1][..i] == cmds[..i];
        var changed := SetItemStatus(cmds[i].ref, cmds[i].slug);
        if changed.Err? {
          ErrorSticks(statuses, old(State()), cmds, i + 1);
          return consumed, Some(changed.error);
        }
        var (key, src, dst) := changed.value;
        history := history + [Changed(key, src, dst)];
        consumed := consumed + [cmds[i].ref];
      }
      assert cmds[..|cmds|] == cmds;
      return consumed, None;
    }

    method MentionItem(ref: string) returns (error: Option<HookError>)
      modifies this`history
      ensures Outcome(State(), error) == ApplyMention(old(State()), ref)
    {
      var found := FindItem(items, RefNumber(ref));
      if found.None? {
        return Some(NoSuchItem);
      }
      history := history + [Mentioned(found.value, ref)];
      error := None;
    }

    /** The second loop over one commit. */
    method MentionItems(mentions: seq<string>, refs: seq<string>) returns (error: Option<HookError>)
      modifies this`history
      ensures Outcome(State(), error) == ApplyMentions(old(State()), Unconsumed(mentions, refs))
    {
      var consumed := refs;
      for i := 0 to |mentions|
        invariant consumed == refs + Unconsumed(mentions[..i], refs)
        invariant Outcome(State(), None) == ApplyMentions(old(State()), Unconsumed(mentions[..i], refs))
      {
        var ref := mentions[i];
        ghost var before := Unconsumed(mentions[..i], refs);
        UnconsumedNext(mentions, refs, i);
        if ref in consumed {
          continue;
        }
        MentionedNext(old(State()), before, ref);
        error := MentionItem(ref);
        if error.Some? {
          UnconsumedErrorSticks(old(State()), mentions, refs, i + 1);
          return;
        }
        consumed := consumed + [ref];
      }
      assert mentions[..|mentions|] == mentions;
      error := None;
    }

    /** `ignored` is the hook's own veto; an error is raised to the caller, leaving the work
        done so far to its transaction. */
    method ProcessEvent(ignored: bool, messages: seq<string>) returns (error: Option<HookError>)
      modifies this
      ensures ignored ==> error == None && State() == old(State())
      ensures !ignored ==> Outcome(State(), error) == ApplyPush(statuses, old(State()), ScanAll(messages))
    {
      if ignored {
        return None;
      }
      ghost var commits := ScanAll(messages);
      for i := 0 to |messages|
        invariant Outcome(State(), None) == ApplyPush(statuses, old(State()), commits[..i])
      {
        assert commits[..i + 1][..i] == commits[..i];
        var commit := Scan(messages[i]);
        var consumed;
        consumed, error := ChangeStatuses(commit.commands);
        if error.None? {
          error := MentionItems(commit.mentions, consumed);
        }
        if error.Some? {
          PushErrorSticks(statuses, old(State()), commits, i + 1);
          return;
        }
      }
      assert commits[..|messages|] == commits;
      return None;
    }
  }

  // ---------- an error ends the loops ----------

  lemma {:induction false} ErrorSticks(statuses: Statuses, b: Board, cmds: seq<StatusCommand>, i: nat)
    requires i <= |cmds| && ApplyCommands(statuses, b, cmds[..i]).error.Some?
    ensures ApplyCommands(statuses, b, cmds) == ApplyCommands(statuses, b, cmds[..i])
  {
    if i == |cmds| {
      assert cmds[..i] == cmds;
    } else {
      var n := |cmds| - 1;
      assert cmds[..n][..i] == cmds[..i];
      ErrorSticks(statuses, b, cmds[..n], i);
    }
  }

  lemma {:induction false} MentionErrorSticks(b: Board, refs: seq<string>, i: nat)
    requires i <= |refs| && ApplyMentions(b, refs[..i]).error.Some?
    ensures ApplyMentions(b, refs) == ApplyMentions(b, refs[..i])
  {
    if i == |refs| {
      assert refs[..i] == refs;
    } else {
      var n := |refs| - 1;
      assert refs[..n][..i] == refs[..i];
      MentionErrorSticks(b, refs[..n], i);
    }
  }

  lemma {:induction false} PushErrorSticks(statuses: Statuses, b: Board, commits: seq<Scanned>, i: nat)
    requires i <= |commits| && ApplyPush(statuses, b, commits[..i]).error.Some?
    ensures ApplyPush(statuses, b, commits) == ApplyPush(statuses, b, commits[..i])
  {
    if i == |commits| {
      assert commits[..i] == commits;
    } else {
      var n := |commits| - 1;
      assert commits[..n][..i] == commits[..i];
      PushErrorSticks(statuses, b, commits[..n], i);
      PushStopped(statuses, b, commits);
    }
  }

  lemma PushStopped(statuses: Statuses, b: Board, commits: seq<Scanned>)
    requires commits != [] && ApplyPush(statuses, b, commits[..|commits| - 1]).error.Some?
    ensures ApplyPush(statuses, b, commits) == ApplyPush(statuses, b, commits[..|commits| - 1])
  {
  }

  lemma {:induction false} UnconsumedPrefix(refs: seq<string>, consumed: seq<string>, i: nat)
    requires i <= |refs|
    ensures var part := Unconsumed(refs[..i], consumed);
            |part| <= |Unconsumed(refs, consumed)| && Unconsumed(refs, consumed)[..|part|] == part
  {
    if i == |refs| {
      assert refs[..i] == refs;
    } else {
      var n := |refs| - 1;
      assert refs[..n][..i] == refs[..i];
      UnconsumedPrefix(refs[..n], consumed, i);
    }
  }

  lemma UnconsumedErrorSticks(b: Board, mentions: seq<string>, consumed: seq<string>, i: nat)
    requires i <= |mentions| && ApplyMentions(b, Unconsumed(mentions[..i], consumed)).error.Some?
    ensures ApplyMentions(b, Unconsumed(mentions, consumed)) == ApplyMentions(b, Unconsumed(mentions[..i], consumed))
  {
    UnconsumedPrefix(mentions, consumed, i);
    MentionErrorSticks(b, Unconsumed(mentions, consumed), |Unconsumed(mentions[..i], consumed)|);
  }

  // ---------- the effect of a push ----------

  function AllCommands(commits: seq<Scanned>): seq<StatusCommand> {
    if commits == [] then []
    else AllCommands(commits[..|commits| - 1]) + commits[|commits| - 1].commands
  }

  /** The slug of the last command addressing a number. */
  function LastSlug(cmds: seq<StatusCommand>, number: nat): Option<string> {
    if cmds == [] then None
    else if RefNumber(cmds[|cmds| - 1].ref) == number then Some(cmds[|cmds| - 1].slug)
    else LastSlug(cmds[..|cmds| - 1], number)
  }

  lemma {:induction false} LastSlugConcat(a: seq<StatusCommand>, b: seq<StatusCommand>, number: nat)
    ensures LastSlug(a + b, number) == if LastSlug(b, number).Some? then LastSlug(b, number) else LastSlug(a, number)
  {
    if b == [] {
      assert a + b == a;
    } else {
      var n := |b| - 1;
      assert (a + b)[..|a| + n] == a + b[..n];
      LastSlugConcat(a, b[..n], number);
    }
  }

  /** The status an item ends with: the one named by the last command for its number, if the
      number finds this item, else the one it had. */
  ghost predicate EndsWith(statuses: Statuses, items: Items, items': Items, cmds: seq<StatusCommand>, key: Key) {
    && key in items && key in items'
    && match LastSlug(cmds, key.number)
       case None => items'[key] == items[key]
       case Some(slug) =>
         if FindItem(items, key.number) == Some(key)
         then (key.kind, slug) in statuses && items'[key] == Some(statuses[(key.kind, slug)])
         else items'[key] == items[key]
  }

  lemma SameKeysSameItem(items: Items, items': Items, number: nat)
    requires items.Keys == items'.Keys
    ensures FindItem(items, number) == FindItem(items', number)
  {
    assert forall key: Key :: key in items <==> key in items.Keys;
    assert forall key: Key :: key in items' <==> key in items'.Keys;
  }

  lemma {:induction false} CommandsKeepKeys(statuses: Statuses, b: Board, cmds: seq<StatusCommand>)
    ensures ApplyCommands(statuses, b, cmds).board.items.Keys == b.items.Keys
  {
    if cmds != [] {
      CommandsKeepKeys(statuses, b, cmds[..|cmds| - 1]);
    }
  }

  lemma {:induction false} CommandsEffect(statuses: Statuses, b: Board, cmds: seq<StatusCommand>, key: Key)
    requires ApplyCommands(statuses, b, cmds).error.None? && key in b.items
    ensures EndsWith(statuses, b.items, ApplyCommands(statuses, b, cmds).board.items, cmds, key)
  {
    if cmds != [] {
      var n := |cmds| - 1;
      var before := ApplyCommands(statuses, b, cmds[..n]).board;
      CommandsEffect(statuses, b, cmds[..n], key);
      CommandsKeepKeys(statuses, b, cmds[..n]);
      SameKeysSameItem(b.items, before.items, RefNumber(cmds[n].ref));
    }
  }

  lemma {:induction false} MentionsEffect(b: Board, refs: seq<string>)
    ensures ApplyMentions(b, refs).board.items == b.items
  {
    if refs != [] {
      MentionsEffect(b, refs[..|refs| - 1]);
    }
  }

  lemma CommitEffect(statuses: Statuses, b: Board, commit: Scanned)
    requires ApplyCommit(statuses, b, commit).error.None?
    ensures ApplyCommands(statuses, b, commit.commands).error.None?
    ensures ApplyCommit(statuses, b, commit).board.items == ApplyCommands(statuses, b, commit.commands).board.items
  {
    MentionsEffect(ApplyCommands(statuses, b, commit.commands).board,
                   Unconsumed(commit.mentions, RefsOf(commit.commands)));
  }

  lemma EndsWithChain(statuses: Statuses, items: Items, mid: Items, items': Items,
                      a: seq<StatusCommand>, b: seq<StatusCommand>, key: Key)
    requires EndsWith(statuses, items, mid, a, key) && EndsWith(statuses, mid, items', b, key)
    requires items.Keys == mid.Keys
    ensures EndsWith(statuses, items, items', a + b, key)
  {
    LastSlugConcat(a, b, key.number);
    SameKeysSameItem(items, mid, key.number);
  }

  lemma {:induction false} PushEffect(statuses: Statuses, b: Board, commits: seq<Scanned>, key: Key)
    requires ApplyPush(statuses, b, commits).error.None? && key in b.items
    ensures ApplyPush(statuses, b, commits).board.items.Keys == b.items.Keys
    ensures EndsWith(statuses, b.items, ApplyPush(statuses, b, commits).board.items, AllCommands(commits), key)
  {
    if commits != [] {
      var n := |commits| - 1;
      PushEffect(statuses, b, commits[..n], key);
      var before := ApplyPush(statuses, b, commits[..n]).board;
      CommitEffect(statuses, before, commits[n]);
      CommandsKeepKeys(statuses, before, commits[n].commands);
      CommandsEffect(statuses, before, commits[n].commands, key);
      EndsWithChain(statuses, b.items, before.items, ApplyCommit(statuses, before, commits[n]).board.items,
                    AllCommands(commits[..n]), commits[n].commands, key);
    }
  }

  /** After a push that raises no error, for every project and every list of messages, each item
      has the status named by the last status command addressing its number, or the one it had
      before when there is none; and no item appears or disappears. */
  lemma LastCommandWins(statuses: Statuses, b: Board, messages: seq<string>, key: Key)
    requires ApplyPush(statuses, b, ScanAll(messages)).error.None? && key in b.items
    ensures var after := ApplyPush(statuses, b, ScanAll(messages)).board.items;
            && after.Keys == b.items.Keys
            && EndsWith(statuses, b.items, after, AllCommands(ScanAll(messages)), key)
  {
    PushEffect(statuses, b, ScanAll(messages), key);
  }

  lemma {:induction false} UnconsumedExactly(refs: seq<string>, consumed: seq<string>, ref: string)
    ensures ref in Unconsumed(refs, consumed) <==> ref in refs && ref !in consumed
    ensures forall i, j | 0 <= i < j < |Unconsumed(refs, consumed)| ::
              Unconsumed(refs, consumed)[i] != Unconsumed(refs, consumed)[j]
  {
    if refs != [] {
      var n := |refs| - 1;
      assert refs == refs[..n] + [refs[n]];
      UnconsumedExactly(refs[..n], consumed, ref);
    }
  }

  /** The name of the status an item has after some commands. */
  ghost predicate Held(statuses: Statuses, items: Items, cmds: seq<StatusCommand>, key: Key, name: string) {
    && key in items
    && match LastSlug(cmds, key.number)
       case None => items[key].Some? && items[key].value.name == name
       case Some(slug) => (key.kind, slug) in statuses && statuses[(key.kind, slug)].name == name
  }

  /** h' is h and one change entry per command, each for the item found by its number, from the
      status the item then had to the one named by the slug. */
  ghost predicate AddsChanges(statuses: Statuses, items: Items, h: seq<Snapshot>, h': seq<Snapshot>, cmds: seq<StatusCommand>) {
    && |h'| == |h| + |cmds| && h <= h'
    && forall j | |h| <= j < |h'| :: ChangeOk(statuses, items, cmds, j - |h|, h'[j])
  }

  ghost predicate ChangeOk(statuses: Statuses, items: Items, cmds: seq<StatusCommand>, k: nat, entry: Snapshot) {
    && k < |cmds| && entry.Changed?
    && FindItem(items, RefNumber(cmds[k].ref)) == Some(entry.key)
    && (entry.key.kind, cmds[k].slug) in statuses
    && entry.dst == statuses[(entry.key.kind, cmds[k].slug)].name
    && Held(statuses, items, cmds[..k], entry.key, entry.src)
  }

  /** h' is h and one mention entry per ref, each for the item found by its number. */
  ghost predicate AddsMentions(items: Items, h: seq<Snapshot>, h': seq<Snapshot>, refs: seq<string>) {
    && |h'| == |h| + |refs| && h <= h'
    && forall j | |h| <= j < |h'| ::
         && h'[j].Mentioned? && h'[j].ref == refs[j - |h|]
         && FindItem(items, RefNumber(refs[j - |h|])) == Some(h'[j].key)
  }

  lemma LastChange(statuses: Statuses, b: Board, cmds: seq<StatusCommand>, cmd: StatusCommand)
    requires ApplyCommands(statuses, b, cmds).error.None?
    requires ApplyCommand(statuses, ApplyCommands(statuses, b, cmds).board, cmd).error.None?
    ensures var before := ApplyCommands(statuses, b, cmds).board;
            exists entry :: ApplyCommand(statuses, before, cmd).board.history == before.history + [entry]
                            && ChangeOk(statuses, b.items, cmds + [cmd], |cmds|, entry)
  {
    var before := ApplyCommands(statuses, b, cmds).board;
    var h := ApplyCommand(statuses, before, cmd).board.history;
    CommandsKeepKeys(statuses, b, cmds);
    SameKeysSameItem(b.items, before.items, RefNumber(cmd.ref));
    var entry := h[|h| - 1];
    CommandsEffect(statuses, b, cmds, entry.key);
    assert (cmds + [cmd])[..|cmds|] == cmds;
    FoundFirst(b.items, RefNumber(cmd.ref), Key(Epic, RefNumber(cmd.ref)));
    assert ChangeOk(statuses, b.items, cmds + [cmd], |cmds|, entry);
  }

  lemma {:induction false} CommandSnapshots(statuses: Statuses, b: Board, cmds: seq<StatusCommand>)
    requires ApplyCommands(statuses, b, cmds).error.None?
    ensures AddsChanges(statuses, b.items, b.history, ApplyCommands(statuses, b, cmds).board.history, cmds)
  {
    if cmds != [] {
      var n := |cmds| - 1;
      CommandSnapshots(statuses, b, cmds[..n]);
      LastChange(statuses, b, cmds[..n], cmds[n]);
      assert cmds[..n] + [cmds[n]] == cmds;
      var h := ApplyCommands(statuses, b, cmds[..n]).board.history;
      var entry :| ApplyCommands(statuses, b, cmds).board.history == h + [entry]
                   && ChangeOk(statuses, b.items, cmds, n, entry);
      AddsOneChange(statuses, b.items, b.history, h, cmds, entry);
    }
  }

  lemma ChangeStays(statuses: Statuses, items: Items, cmds: seq<StatusCommand>, n: nat, k: nat, entry: Snapshot)
    requires k < n <= |cmds| && ChangeOk(statuses, items, cmds[..n], k, entry)
    ensures ChangeOk(statuses, items, cmds, k, entry)
  {
    assert cmds[..n][..k] == cmds[..k];
  }

  lemma AddsOneChange(statuses: Statuses, items: Items, before: seq<Snapshot>, h: seq<Snapshot>,
                      cmds: seq<StatusCommand>, entry: Snapshot)
    requires cmds != [] && AddsChanges(statuses, items, before, h, cmds[..|cmds| - 1])
    requires ChangeOk(statuses, items, cmds, |cmds| - 1, entry)
    ensures AddsChanges(statuses, items, before, h + [entry], cmds)
  {
    forall j | |before| <= j < |h| ensures ChangeOk(statuses, items, cmds, j - |before|, h[j]) {
      ChangeStays(statuses, items, cmds, |cmds| - 1, j - |before|, h[j]);
    }
  }

  lemma {:induction false} MentionSnapshots(b: Board, refs: seq<string>)
    requires ApplyMentions(b, refs).error.None?
    ensures AddsMentions(b.items, b.history, ApplyMentions(b, refs).board.history, refs)
  {
    if refs != [] {
      var n := |refs| - 1;
      MentionSnapshots(b, refs[..n]);
      MentionsEffect(b, refs[..n]);
    }
  }

  lemma MentionsAfterCommands(statuses: Statuses, b: Board, commit: Scanned)
    requires ApplyCommit(statuses, b, commit).error.None?
    ensures AddsMentions(b.items, ApplyCommands(statuses, b, commit.commands).board.history,
                         ApplyCommit(statuses, b, commit).board.history,
                         Unconsumed(commit.mentions, RefsOf(commit.commands)))
  {
    var changed := ApplyCommands(statuses, b, commit.commands).board;
    var refs := Unconsumed(commit.mentions, RefsOf(commit.commands));
    MentionSnapshots(changed, refs);
    CommandsKeepKeys(statuses, b, commit.commands);
    var h' := ApplyCommit(statuses, b, commit).board.history;
    forall j | |changed.history| <= j < |h'|
      ensures FindItem(b.items, RefNumber(refs[j - |changed.history|])) == Some(h'[j].key)
    {
      SameKeysSameItem(b.items, changed.items, RefNumber(refs[j - |changed.history|]));
    }
  }

  /** A commit that raises no error adds one entry per status command, in order, then exactly one
      per distinct mentioned ref text that has no status command in this commit. */
  lemma CommitSnapshots(statuses: Statuses, b: Board, commit: Scanned, ref: string)
    requires ApplyCommit(statuses, b, commit).error.None?
    ensures var changed := ApplyCommands(statuses, b, commit.commands).board.history;
            var mentioned := Unconsumed(commit.mentions, RefsOf(commit.commands));
            && AddsChanges(statuses, b.items, b.history, changed, commit.commands)
            && AddsMentions(b.items, changed, ApplyCommit(statuses, b, commit).board.history, mentioned)
            && (ref in mentioned <==> ref in commit.mentions && ref !in RefsOf(commit.commands))
            && (forall i, j | 0 <= i < j < |mentioned| :: mentioned[i] != mentioned[j])
  {
    CommandSnapshots(statuses, b, commit.commands);
    MentionsAfterCommands(statuses, b, commit);
    UnconsumedExactly(commit.mentions, RefsOf(commit.commands), ref);
  }

  // ---------- when a push raises no error ----------

  ghost predicate Resolves(items: Items, ref: string) {
    FindItem(items, RefNumber(ref)).Some?
  }

  /** The number finds an item that has a status, and the item's kind has a status of that slug. */
  ghost predicate Applies(statuses: Statuses, items: Items, cmd: StatusCommand) {
    && Resolves(items, cmd.ref)
    && var key := FindItem(items, RefNumber(cmd.ref)).value;
    && key in items && items[key].Some? && (key.kind, cmd.slug) in statuses
  }

  /** Commands neither add nor remove items, and never clear a status. */
  ghost predicate SameShape(items: Items, items': Items) {
    && items.Keys == items'.Keys
    && forall key | key in items :: items[key].Some? <==> key in items' && items'[key].Some?
  }

  lemma SameShapeSameChecks(statuses: Statuses, items: Items, items': Items, cmd: StatusCommand)
    requires SameShape(items, items')
    ensures Applies(statuses, items, cmd) <==> Applies(statuses, items', cmd)
    ensures Resolves(items, cmd.ref) <==> Resolves(items', cmd.ref)
  {
    SameKeysSameItem(items, items', RefNumber(cmd.ref));
  }

  lemma {:induction false} CommandsSucceedIff(statuses: Statuses, b: Board, cmds: seq<StatusCommand>)
    ensures SameShape(b.items, ApplyCommands(statuses, b, cmds).board.items)
    ensures ApplyCommands(statuses, b, cmds).error.None?
       <==> forall cmd | cmd in cmds :: Applies(statuses, b.items, cmd)
  {
    if cmds != [] {
      var n := |cmds| - 1;
      CommandsSucceedIff(statuses, b, cmds[..n]);
      SameShapeSameChecks(statuses, b.items, ApplyCommands(statuses, b, cmds[..n]).board.items, cmds[n]);
      assert cmds == cmds[..n] + [cmds[n]];
    }
  }

  lemma {:induction false} MentionsSucceedIff(b: Board, refs: seq<string>)
    ensures ApplyMentions(b, refs).error.None? <==> forall ref | ref in refs :: Resolves(b.items, ref)
  {
    if refs != [] {
      var n := |refs| - 1;
      MentionsSucceedIff(b, refs[..n]);
      MentionsEffect(b, refs[..n]);
      assert ApplyMention(ApplyMentions(b, refs[..n]).board, refs[n]).error.None? <==> Resolves(b.items, refs[n]);
      assert refs == refs[..n] + [refs[n]];
    }
  }

  /** A commit is applied without error exactly when every command applies to the items as they
      were before it and every mentioned ref finds an item. */
  lemma CommitSucceedsIff(statuses: Statuses, b: Board, commit: Scanned)
    ensures ApplyCommit(statuses, b, commit).error.None? <==> (
              && (forall cmd | cmd in commit.commands :: Applies(statuses, b.items, cmd))
              && (forall ref | ref in commit.mentions :: Resolves(b.items, ref)))
  {
    CommandsSucceedIff(statuses, b, commit.commands);
    var changed := ApplyCommands(statuses, b, commit.commands).board;
    var mentioned := Unconsumed(commit.mentions, RefsOf(commit.commands));
    MentionsSucceedIff(changed, mentioned);
    forall ref | ref in commit.mentions
      ensures Resolves(b.items, ref) == Resolves(changed.items, ref)
      ensures ref in mentioned || exists cmd | cmd in commit.commands :: cmd.ref == ref
    {
      SameShapeSameChecks(statuses, b.items, changed.items, StatusCommand(ref, ""));
      UnconsumedExactly(commit.mentions, RefsOf(commit.commands), ref);
      if ref !in mentioned {
        var i :| 0 <= i < |commit.commands| && RefsOf(commit.commands)[i] == ref;
        assert commit.commands[i] in commit.commands;
      }
    }
    forall ref | ref in mentioned ensures ref in commit.mentions {
      UnconsumedExactly(commit.mentions, RefsOf(commit.commands), ref);
    }
  }
}
