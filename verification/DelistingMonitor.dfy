/**
 The delisting monitor (strategies/binance_delisting_monitor/binance_delisting_monitor.py): a state
 file of seen and pending announcements, saved before and after each push, over runs that may die
 at any step.
 */
module DelistingMonitor {
  import opened Wrappers
  import opened StableSort

  type Code = string

  datatype Announcement = Announcement(code: Code, title: string, release: int)

  // ---------------------------------------------------------------- collecting

  /** An article of a catalogue page; `matched` is what the title patterns say of it. */
  datatype Item = Item(code: Code, title: string, release: int, matched: bool)

  predicate Hit(i: Item) {
    i.code != "" && i.title != "" && i.matched
  }

  function Announced(i: Item): Announcement {
    Announcement(i.code, i.title, i.release)
  }

  /** The first hit of every code, in order. */
  function FirstHits(items: seq<Item>): seq<Announcement> {
    if items == [] then []
    else
      var before, i := FirstHits(items[..|items| - 1]), items[|items| - 1];
      if Hit(i) && i.code !in CodesOf(before) then before + [Announced(i)] else before
  }

  function CodesOf(xs: seq<Announcement>): set<Code> {
    set i | 0 <= i < |xs| :: xs[i].code
  }

  function NewestFirst(a: Announcement): int {
    -a.release
  }

  /** The codes of articles that have a code and a title and whose title matches. */
  function HitCodes(items: seq<Item>): set<Code> {
    set i | 0 <= i < |items| && items[i].matched && items[i].code != "" && items[i].title != "" :: items[i].code
  }

  lemma LastCode(xs: seq<Announcement>, a: Announcement)
    ensures CodesOf(xs + [a]) == CodesOf(xs) + {a.code}
  {
    var ys := xs + [a];
    assert ys[|xs|] == a && forall i :: 0 <= i < |xs| ==> ys[i] == xs[i];
    forall c ensures c in CodesOf(ys) <==> c in CodesOf(xs) + {a.code} {
      if c in CodesOf(xs) {
        var i :| 0 <= i < |xs| && xs[i].code == c;
        assert ys[i].code == c;
      }
    }
  }

  lemma LastHit(items: seq<Item>)
    requires items != []
    ensures var n := |items| - 1;
            HitCodes(items) == HitCodes(items[..n]) + if Hit(items[n]) then {items[n].code} else {}
  {
    var n := |items| - 1;
    var before := items[..n];
    assert forall i :: 0 <= i < n ==> before[i] == items[i];
    forall c ensures c in HitCodes(items) <==> c in HitCodes(before) + if Hit(items[n]) then {items[n].code} else {} {
      if c in HitCodes(before) {
        var i :| 0 <= i < n && Hit(before[i]) && before[i].code == c;
        assert Hit(items[i]) && items[i].code == c;
      }
    }
  }

  /** One announcement per code, and every code with a hit has one. */
  lemma {:induction false} FirstHitsOnce(items: seq<Item>)
    ensures var xs := FirstHits(items);
            forall i, j :: 0 <= i < j < |xs| ==> xs[i].code != xs[j].code
    ensures CodesOf(FirstHits(items)) == HitCodes(items)
  {
    if items != [] {
      var n := |items| - 1;
      var before := FirstHits(items[..n]);
      FirstHitsOnce(items[..n]);
      LastHit(items);
      LastCode(before, Announced(items[n]));
      assert forall i :: 0 <= i < |before| ==> before[i].code in CodesOf(before);
    }
  }

  /** The kept announcement of a code is that of its first hit. */
  lemma {:induction false} FirstHitsAreFirst(items: seq<Item>, k: nat)
    requires k < |FirstHits(items)|
    ensures exists i: nat :: IsFirstHit(items, i) && Tells(FirstHits(items)[k], items[i])
  {
    var n := |items| - 1;
    var before := FirstHits(items[..n]);
    if k < |before| {
      FirstHitsAreFirst(items[..n], k);
      var i: nat :| IsFirstHit(items[..n], i) && Tells(before[k], items[..n][i]);
      assert IsFirstHit(items, i) by { assert forall j :: 0 <= j <= i ==> items[..n][j] == items[j]; }
    } else {
      FirstHitsOnce(items[..n]);
      assert IsFirstHit(items, n) by {
        forall j | 0 <= j < n && Hit(items[j]) ensures items[j].code != items[n].code {
          assert items[..n][j] == items[j];
          assert items[j].code in HitCodes(items[..n]);
        }
      }
    }
  }

  predicate Tells(a: Announcement, i: Item) {
    a.code == i.code && a.title == i.title && a.release == i.release
  }

  predicate IsFirstHit(items: seq<Item>, i: nat) {
    && i < |items| && items[i].matched && items[i].code != "" && items[i].title != ""
    && forall j :: 0 <= j < i && items[j].matched && items[j].title != "" ==> items[j].code != items[i].code
  }

  /** The collected list is newest first and holds each hit code exactly once. */
  lemma CollectedOnce(items: seq<Item>)
    ensures var hits := SortByKey(FirstHits(items), NewestFirst);
            (forall i, j :: 0 <= i < j < |hits| ==> hits[i].release >= hits[j].release)
            && CodesOf(hits) == HitCodes(items) && |hits| == |HitCodes(items)|
  {
    var xs := FirstHits(items);
    var hits := SortByKey(xs, NewestFirst);
    SortIsStable(xs, NewestFirst, 0);
    FirstHitsOnce(items);
    DistinctCount(xs);
    forall c ensures c in CodesOf(hits) <==> c in CodesOf(xs) {
      if c in CodesOf(hits) {
        var i :| 0 <= i < |hits| && hits[i].code == c;
        SortMembers(xs, NewestFirst, hits[i]);
        assert hits[i] in xs;
      }
      if c in CodesOf(xs) {
        var i :| 0 <= i < |xs| && xs[i].code == c;
        SortMembers(xs, NewestFirst, xs[i]);
        assert xs[i] in hits;
      }
    }
  }

  lemma {:induction false} DistinctCount(xs: seq<Announcement>)
    requires forall i, j :: 0 <= i < j < |xs| ==> xs[i].code != xs[j].code
    ensures |CodesOf(xs)| == |xs|
  {
    if xs == [] {
      assert CodesOf(xs) == {};
    } else {
      var n := |xs| - 1;
      DistinctCount(xs[..n]);
      LastCode(xs[..n], xs[n]);
      assert xs == xs[..n] + [xs[n]];
    }
  }

  method Collect(pages: seq<seq<Item>>) returns (hits: seq<Announcement>)
    ensures hits == SortByKey(FirstHits(Concat(pages)), NewestFirst)
  {
    hits := [];
    var seenCodes: set<Code> := {};
    for p := 0 to |pages|
      invariant hits == FirstHits(Concat(pages[..p])) && seenCodes == CodesOf(hits)
    {
      ghost var before := Concat(pages[..p]);
      assert before + pages[p][..0] == before;
      for k := 0 to |pages[p]|
        invariant hits == FirstHits(before + pages[p][..k]) && seenCodes == CodesOf(hits)
      {
        var item := pages[p][k];
        ghost var items := before + pages[p][..k + 1];
        assert items[..|items| - 1] == before + pages[p][..k] && items[|items| - 1] == item;
        if item.code == "" || item.title == "" || item.code in seenCodes { continue; }
        if !item.matched { continue; }
        seenCodes := seenCodes + {item.code};
        LastCode(hits, Announced(item));
        hits := hits + [Announced(item)];
      }
      assert pages[..p + 1][..p] == pages[..p];
      assert pages[p][..|pages[p]|] == pages[p];
    }
    assert pages[..|pages|] == pages;
    hits := SortByKey(hits, NewestFirst);
  }

  function Concat(pages: seq<seq<Item>>): seq<Item> {
    if pages == [] then [] else Concat(pages[..|pages| - 1]) + pages[|pages| - 1]
  }

  /** Pages follow one another in order. */
  lemma {:induction false} PagesInOrder(xs: seq<seq<Item>>, ys: seq<seq<Item>>, page: seq<Item>)
    ensures Concat(xs + ys) == Concat(xs) + Concat(ys) && Concat([page]) == page
  {
    assert [page][..0] == [];
    if ys == [] {
      assert xs + ys == xs;
    } else {
      var n := |ys| - 1;
      PagesInOrder(xs, ys[..n], page);
      assert (xs + ys)[..|xs + ys| - 1] == xs + ys[..n];
    }
  }

  // ---------------------------------------------------------------- one run

  /** The state file; titles stand for what is recorded of a seen announcement. */
  datatype Persisted = Persisted(seen: map<Code, string>, pending: map<Code, Announcement>)

  /** How a run goes, as far as it gets: a reply to a push may be lost although it arrived. */
  datatype Fate = DiesBeforeSave | DiesBeforePush | PushRefused | ReplyLost | DiesAfterPush | Completes

  datatype RunInput = RunInput(hits: seq<Announcement>, all: bool, webhook: bool, dryRun: bool, fate: Fate)

  /** The state file and the pushes that reached the webhook. */
  datatype World = World(disk: Option<Persisted>, pushes: seq<set<Code>>)

  function Loaded(disk: Option<Persisted>): Persisted {
    if disk.None? then Persisted(map[], map[]) else disk.value
  }

  function Unseen(hits: seq<Announcement>, seen: map<Code, string>): seq<Announcement> {
    if hits == [] then []
    else if hits[0].code in seen then Unseen(hits[1..], seen)
    else [hits[0]] + Unseen(hits[1..], seen)
  }

  /** `pending[a.code] = a` for each. */
  function Queue(pending: map<Code, Announcement>, xs: seq<Announcement>): map<Code, Announcement>
    decreases xs
  {
    if xs == [] then pending else Queue(pending[xs[0].code := xs[0]], xs[1..])
  }

  /** `seen.setdefault(a.code, ...)` for each. */
  function Record(seen: map<Code, string>, xs: seq<Announcement>): map<Code, string>
    decreases xs
  {
    if xs == [] then seen
    else Record(if xs[0].code in seen then seen else seen[xs[0].code := xs[0].title], xs[1..])
  }

  function NewOf(st: Persisted, run: RunInput): seq<Announcement> {
    if run.all then run.hits else Unseen(run.hits, st.seen)
  }

  /** The state a run works with once the new announcements are queued and recorded. */
  function Working(st: Persisted, run: RunInput): Persisted {
    Persisted(Record(st.seen, run.hits), if run.webhook then Queue(st.pending, NewOf(st, run)) else st.pending)
  }

  /** Does the run get to its push? */
  predicate Pushes(st: Persisted, run: RunInput) {
    && run.webhook && !run.dryRun
    && !run.fate.DiesBeforeSave? && !run.fate.DiesBeforePush?
    && (NewOf(st, run) != [] || Working(st, run).pending != map[])
  }

  /** Is there anything to show or to push? */
  predicate HasNews(st: Persisted, run: RunInput) {
    NewOf(st, run) != [] || (run.webhook && Working(st, run).pending != map[])
  }

  predicate Arrives(fate: Fate) {
    fate.ReplyLost? || fate.DiesAfterPush? || fate.Completes?
  }

  function After(w: World, run: RunInput): World {
    var st := Loaded(w.disk);
    var next := Working(st, run);
    if run.fate.DiesBeforeSave? || run.dryRun then w
    else if !Pushes(st, run) then w.(disk := Some(next))
    else World(Some(if run.fate.Completes? then next.(pending := map[]) else next),
               if Arrives(run.fate) then w.pushes + [next.pending.Keys] else w.pushes)
  }

  function AfterAll(w: World, runs: seq<RunInput>): World
    decreases runs
  {
    if runs == [] then w else AfterAll(After(w, runs[0]), runs[1..])
  }

  /** `[a for a in hits if a.code not in seen]`. */
  method SelectNew(hits: seq<Announcement>, seen: map<Code, string>) returns (new_: seq<Announcement>)
    ensures new_ == Unseen(hits, seen)
  {
    new_ := [];
    for i := 0 to |hits|
      invariant new_ + Unseen(hits[i..], seen) == Unseen(hits, seen)
    {
      assert hits[i..][1..] == hits[i + 1..];
      if hits[i].code !in seen { new_ := new_ + [hits[i]]; }
    }
  }

  method QueueNew(pending: map<Code, Announcement>, xs: seq<Announcement>) returns (queued: map<Code, Announcement>)
    ensures queued == Queue(pending, xs)
  {
    queued := pending;
    for i := 0 to |xs|
      invariant Queue(queued, xs[i..]) == Queue(pending, xs)
    {
      assert xs[i..][1..] == xs[i + 1..];
      queued := queued[xs[i].code := xs[i]];
    }
  }

  method RecordSeen(seen: map<Code, string>, xs: seq<Announcement>) returns (recorded: map<Code, string>)
    ensures recorded == Record(seen, xs)
  {
    recorded := seen;
    for i := 0 to |xs|
      invariant Record(recorded, xs[i..]) == Record(seen, xs)
    {
      assert xs[i..][1..] == xs[i + 1..];
      if xs[i].code !in recorded { recorded := recorded[xs[i].code := xs[i].title]; }
    }
  }

  class Monitor {
    var disk: Option<Persisted>
    var pushes: seq<set<Code>>

    constructor (disk: Option<Persisted>)
      ensures this.disk == disk && pushes == []
    {
      this.disk := disk;
      pushes := [];
    }

    /** The exit code, or none for a run that died. */
    method RunOnce(run: RunInput) returns (code: Option<int>)
      modifies this
      ensures World(disk, pushes) == After(old(World(disk, pushes)), run)
      ensures code == Some(1) <==> Pushes(Loaded(old(disk)), run) && (run.fate.PushRefused? || run.fate.ReplyLost?)
      ensures code == None <==>
                run.fate.DiesBeforeSave?
                || (run.fate.DiesBeforePush? && HasNews(Loaded(old(disk)), run))
                || (run.fate.DiesAfterPush? && Pushes(Loaded(old(disk)), run))
      ensures code != None ==> code == Some(0) || code == Some(1)
    {
      var state := if disk.Some? then disk.value else Persisted(map[], map[]);
      var new_ := run.hits;
      if !run.all { new_ := SelectNew(run.hits, state.seen); }
      var pending := state.pending;
      if run.webhook { pending := QueueNew(pending, new_); }
      var seen := RecordSeen(state.seen, run.hits);
      if run.fate.DiesBeforeSave? { return None; }
      if !run.dryRun { disk := Some(Persisted(seen, pending)); }

      if new_ == [] && !(run.webhook && pending != map[]) { return Some(0); }
      if run.fate.DiesBeforePush? { return None; }
      if run.webhook && !run.dryRun {
        if Arrives(run.fate) { pushes := pushes + [pending.Keys]; }
        if run.fate.PushRefused? || run.fate.ReplyLost? { return Some(1); }
        if run.fate.DiesAfterPush? { return None; }
        pending := map[];
        disk := Some(Persisted(seen, pending));
      }
      return Some(0);
    }
  }

  // ---------------------------------------------------------------- what one run does to the state

  lemma {:induction false} UnseenCodes(hits: seq<Announcement>, seen: map<Code, string>)
    ensures CodesOf(Unseen(hits, seen)) == CodesOf(hits) - seen.Keys
  {
    if hits != [] {
      UnseenCodes(hits[1..], seen);
      HeadCode(hits);
      if hits[0].code !in seen { HeadCode(Unseen(hits, seen)); }
    }
  }

  lemma HeadCode(xs: seq<Announcement>)
    requires xs != []
    ensures CodesOf(xs) == {xs[0].code} + CodesOf(xs[1..])
  {
    forall c ensures c in CodesOf(xs) <==> c in {xs[0].code} + CodesOf(xs[1..]) {
      if c in CodesOf(xs[1..]) {
        var i :| 0 <= i < |xs[1..]| && xs[1..][i].code == c;
        assert xs[i + 1].code == c;
      }
      if c in CodesOf(xs) && c != xs[0].code {
        var i :| 0 <= i < |xs| && xs[i].code == c;
        assert xs[1..][i - 1].code == c;
      }
    }
  }

  lemma {:induction false} QueueKeys(pending: map<Code, Announcement>, xs: seq<Announcement>)
    ensures Queue(pending, xs).Keys == pending.Keys + CodesOf(xs)
    decreases xs
  {
    if xs != [] {
      QueueKeys(pending[xs[0].code := xs[0]], xs[1..]);
      HeadCode(xs);
    }
  }

  lemma {:induction false} RecordKeeps(seen: map<Code, string>, xs: seq<Announcement>)
    ensures Record(seen, xs).Keys == seen.Keys + CodesOf(xs)
    ensures forall c :: c in seen ==> Record(seen, xs)[c] == seen[c]
    decreases xs
  {
    if xs != [] {
      RecordKeeps(if xs[0].code in seen then seen else seen[xs[0].code := xs[0].title], xs[1..]);
      HeadCode(xs);
    }
  }

  function Seen(w: World): set<Code> {
    Loaded(w.disk).seen.Keys
  }

  function Pending(w: World): set<Code> {
    Loaded(w.disk).pending.Keys
  }

  function Pushed(pushes: seq<set<Code>>): set<Code> {
    set i, c | 0 <= i < |pushes| && c in pushes[i] :: c
  }

  /** One run in terms of code sets. */
  lemma RunCodes(w: World, run: RunInput)
    ensures var next := Working(Loaded(w.disk), run);
            next.seen.Keys == Seen(w) + CodesOf(run.hits)
            && next.pending.Keys == Pending(w) + if !run.webhook then {}
                                                 else if run.all then CodesOf(run.hits)
                                                 else CodesOf(run.hits) - Seen(w)
  {
    var st := Loaded(w.disk);
    RecordKeeps(st.seen, run.hits);
    UnseenCodes(run.hits, st.seen);
    QueueKeys(st.pending, NewOf(st, run));
  }

  /** A code queued by a run stands for one of the announcements, the last with it; the others as before. */
  lemma {:induction false} QueueHolds(pending: map<Code, Announcement>, xs: seq<Announcement>, c: Code)
    ensures var q := Queue(pending, xs);
            if c in CodesOf(xs) then c in q && exists i: nat :: IsLastOf(xs, i, c) && q[c] == xs[i]
            else c in q <==> c in pending
    ensures c !in CodesOf(xs) && c in pending ==> Queue(pending, xs)[c] == pending[c]
    decreases xs
  {
    if xs != [] {
      var tail := xs[1..];
      HeadCode(xs);
      QueueHolds(pending[xs[0].code := xs[0]], tail, c);
      if c in CodesOf(tail) {
        var i: nat :| IsLastOf(tail, i, c) && Queue(pending, xs)[c] == tail[i];
        assert forall j :: 0 < j < |xs| ==> xs[j] == tail[j - 1];
        assert IsLastOf(xs, i + 1, c);
      } else if c == xs[0].code {
        assert forall j :: 0 < j < |xs| ==> xs[j] == tail[j - 1];
        assert IsLastOf(xs, 0, c);
      }
    }
  }

  predicate IsLastOf(xs: seq<Announcement>, i: nat, c: Code) {
    i < |xs| && xs[i].code == c && forall j :: i < j < |xs| ==> xs[j].code != c
  }

  /** A code first seen in a run is recorded with the title of its first announcement. */
  lemma {:induction false} RecordHolds(seen: map<Code, string>, xs: seq<Announcement>, c: Code)
    requires c !in seen && c in CodesOf(xs)
    ensures c in Record(seen, xs) && exists i: nat :: IsFirstOf(xs, i, c) && Record(seen, xs)[c] == xs[i].title
    decreases xs
  {
    HeadCode(xs);
    var tail := xs[1..];
    if xs[0].code == c {
      RecordKeeps(seen[c := xs[0].title], tail);
      assert IsFirstOf(xs, 0, c);
    } else {
      RecordHolds(if xs[0].code in seen then seen else seen[xs[0].code := xs[0].title], tail, c);
      var i: nat :| IsFirstOf(tail, i, c) && Record(seen, xs)[c] == tail[i].title;
      assert forall j :: 0 < j < |xs| ==> xs[j] == tail[j - 1];
      assert IsFirstOf(xs, i + 1, c);
    }
  }

  predicate IsFirstOf(xs: seq<Announcement>, i: nat, c: Code) {
    i < |xs| && xs[i].code == c && forall j :: 0 <= j < i ==> xs[j].code != c
  }

  /** A run to the saved file and the webhook: what is seen, what is queued and what is pushed after it. */
  lemma RunEffect(w: World, run: RunInput)
    ensures var w', hits := After(w, run), CodesOf(run.hits);
            var saves := !run.dryRun && !run.fate.DiesBeforeSave?;
            var queued := Pending(w) + if !run.webhook then {} else if run.all then hits else hits - Seen(w);
            var tries := saves && run.webhook && queued != {} && !run.fate.DiesBeforePush?;
            Seen(w') == (if saves then Seen(w) + hits else Seen(w))
            && Pending(w') == (if !saves then Pending(w) else if tries && run.fate.Completes? then {} else queued)
            && w'.pushes == if tries && !run.fate.PushRefused? then w.pushes + [queued] else w.pushes
  {
    RunCodes(w, run);
    if run.webhook { NewIsQueued(Loaded(w.disk), run); }
  }

  /** Without a state file nothing is seen or queued. */
  lemma FreshStart(pushes: seq<set<Code>>)
    ensures Seen(World(None, pushes)) == {} && Pending(World(None, pushes)) == {}
  {
  }

  lemma NewIsQueued(st: Persisted, run: RunInput)
    requires run.webhook
    ensures NewOf(st, run) != [] || Working(st, run).pending != map[] <==> Working(st, run).pending.Keys != {}
  {
    var new_ := NewOf(st, run);
    QueueKeys(st.pending, new_);
    if new_ != [] { assert new_[0].code in CodesOf(new_); }
  }

  lemma PushedAppend(pushes: seq<set<Code>>, s: set<Code>)
    ensures Pushed(pushes + [s]) == Pushed(pushes) + s
  {
    forall c ensures c in Pushed(pushes + [s]) <==> c in Pushed(pushes) + s {
      if c in s { assert (pushes + [s])[|pushes|] == s; }
      if c in Pushed(pushes) {
        var i :| 0 <= i < |pushes| && c in pushes[i];
        assert (pushes + [s])[i] == pushes[i];
      }
    }
  }

  // ---------------------------------------------------------------- nothing is lost

  /** Everything recorded as seen is still queued or has been pushed. */
  ghost predicate NothingLost(w: World) {
    Seen(w) <= Pending(w) + Pushed(w.pushes)
  }

  /** The run saves its hits as seen and queues them nowhere, and some of them were never queued or pushed. */
  ghost predicate Loses(w: World, run: RunInput) {
    && !run.webhook && !run.dryRun && !run.fate.DiesBeforeSave?
    && !(CodesOf(run.hits) <= Pending(w) + Pushed(w.pushes))
  }

  /** A run breaks the record exactly if it saves, without a webhook, a code not queued and never pushed. */
  lemma RunLosesNothing(w: World, run: RunInput)
    requires NothingLost(w)
    ensures NothingLost(After(w, run)) <==> !Loses(w, run)
  {
    RunCodes(w, run);
    var next := Working(Loaded(w.disk), run);
    PushedAppend(w.pushes, next.pending.Keys);
  }

  /** Over any runs with a webhook or dry, dying anywhere, every seen code is pending or was pushed. */
  lemma {:induction false} RunsLoseNothing(w: World, runs: seq<RunInput>)
    requires NothingLost(w)
    requires forall r :: r in runs ==> r.webhook || r.dryRun
    ensures NothingLost(AfterAll(w, runs))
    decreases runs
  {
    if runs != [] {
      RunLosesNothing(w, runs[0]);
      RunsLoseNothing(After(w, runs[0]), runs[1..]);
    }
  }

  /** No run loses a code of the world it starts in. */
  ghost predicate NoneLoses(w: World, runs: seq<RunInput>)
    decreases runs
  {
    runs == [] || (!Loses(w, runs[0]) && NoneLoses(After(w, runs[0]), runs[1..]))
  }

  /** A code recorded but neither queued nor pushed stays so through runs without --all. */
  lemma LostForGood(w: World, runs: seq<RunInput>)
    requires !NothingLost(w)
    requires forall r :: r in runs ==> !r.all
    ensures !NothingLost(AfterAll(w, runs))
  {
    var c :| c in Seen(w) && c !in Pending(w) + Pushed(w.pushes);
    NeverResent(w, runs, c);
    var w' := AfterAll(w, runs);
    forall i | 0 <= i < |w'.pushes| ensures c !in w'.pushes[i] {
      if i < |w.pushes| { assert w.pushes[i] == w'.pushes[i] && w.pushes[i] <= Pushed(w.pushes); }
    }
  }

  /** Over any runs without --all, something is lost at the end exactly if some run lost it. */
  lemma {:induction false} RunsLoseExactly(w: World, runs: seq<RunInput>)
    requires NothingLost(w)
    requires forall r :: r in runs ==> !r.all
    ensures NothingLost(AfterAll(w, runs)) <==> NoneLoses(w, runs)
    decreases runs
  {
    if runs != [] {
      RunLosesNothing(w, runs[0]);
      if Loses(w, runs[0]) {
        LostForGood(After(w, runs[0]), runs[1..]);
      } else {
        RunsLoseExactly(After(w, runs[0]), runs[1..]);
      }
    }
  }

  /** A run that completes with a webhook leaves nothing pending and everything seen pushed. */
  lemma CompletedRunSettles(w: World, run: RunInput)
    requires NothingLost(w) && run.webhook && !run.dryRun && run.fate.Completes?
    ensures Pending(After(w, run)) == {}
    ensures Seen(After(w, run)) <= Pushed(After(w, run).pushes)
  {
    RunLosesNothing(w, run);
  }

  /** What is queued stays queued, whatever becomes of the runs, until a push of it completes. */
  lemma PendingUntilPushed(w: World, run: RunInput, c: Code)
    requires c in Pending(w)
    ensures var w' := After(w, run);
            c in Pending(w')
            || (run.fate.Completes? && |w'.pushes| == |w.pushes| + 1 && c in w'.pushes[|w.pushes|])
  {
    RunCodes(w, run);
  }

  /** A first run without a webhook loses what it finds. */
  lemma RunWithoutWebhookLoses(a: Announcement)
    ensures !NothingLost(After(World(None, []), RunInput([a], false, false, false, Completes)))
  {
    var w, run := World(None, []), RunInput([a], false, false, false, Completes);
    assert run.hits[0].code in CodesOf(run.hits);
    RunLosesNothing(w, run);
  }

  // ---------------------------------------------------------------- nothing is pushed twice

  /** Queued codes are recorded; a code seen but not queued will not be pushed again. */
  ghost predicate Orderly(w: World) {
    && Pending(w) <= Seen(w)
    && Pushed(w.pushes) <= Seen(w) - Pending(w)
    && PairwiseDisjoint(w.pushes)
  }

  ghost predicate PairwiseDisjoint(pushes: seq<set<Code>>) {
    forall i, j :: 0 <= i < j < |pushes| ==> pushes[i] !! pushes[j]
  }

  /** A push that arrives and stays queued: its reply is lost, or the run dies before the second save. */
  predicate Unanswered(w: World, run: RunInput) {
    Pushes(Loaded(w.disk), run) && (run.fate.ReplyLost? || run.fate.DiesAfterPush?)
  }

  /** `--all` queues again what was pushed before. */
  predicate Requeues(w: World, run: RunInput) {
    && run.all && run.webhook && !run.dryRun && !run.fate.DiesBeforeSave?
    && !(CodesOf(run.hits) !! Pushed(w.pushes))
  }

  predicate Careful(w: World, run: RunInput) {
    !Unanswered(w, run) && !Requeues(w, run)
  }

  lemma PushIsNotEmpty(w: World, run: RunInput)
    requires Pushes(Loaded(w.disk), run)
    ensures Working(Loaded(w.disk), run).pending.Keys != {}
  {
    var new_ := NewOf(Loaded(w.disk), run);
    QueueKeys(Loaded(w.disk).pending, new_);
    if new_ != [] { assert new_[0].code in CodesOf(new_); }
  }

  lemma DisjointAppend(pushes: seq<set<Code>>, s: set<Code>)
    ensures PairwiseDisjoint(pushes + [s]) <==> PairwiseDisjoint(pushes) && Pushed(pushes) !! s
  {
    var more := pushes + [s];
    assert forall i :: 0 <= i < |pushes| ==> pushes[i] <= Pushed(pushes) && more[i] == pushes[i];
    assert more[|pushes|] == s;
    if PairwiseDisjoint(more) {
      forall c | c in Pushed(pushes) ensures c !in s {
        var i :| 0 <= i < |pushes| && c in pushes[i];
        assert more[i] !! more[|pushes|];
      }
      forall i, j | 0 <= i < j < |pushes| ensures pushes[i] !! pushes[j] { assert more[i] !! more[j]; }
    }
  }

  lemma CarefulStaysOrderly(w: World, run: RunInput)
    requires Orderly(w) && Careful(w, run)
    ensures Orderly(After(w, run))
  {
    if !run.dryRun && !run.fate.DiesBeforeSave? {
      RunCodes(w, run);
      var next := Working(Loaded(w.disk), run);
      PushedAppend(w.pushes, next.pending.Keys);
      DisjointAppend(w.pushes, next.pending.Keys);
    }
  }

  /** Some code has been pushed and is queued, or was pushed twice. */
  ghost predicate Repeating(w: World) {
    !(Pending(w) !! Pushed(w.pushes)) || !PairwiseDisjoint(w.pushes)
  }

  lemma CarelessRepeats(w: World, run: RunInput)
    requires Orderly(w) && !Careful(w, run)
    ensures Repeating(After(w, run))
  {
    RunCodes(w, run);
    var next := Working(Loaded(w.disk), run);
    PushedAppend(w.pushes, next.pending.Keys);
    DisjointAppend(w.pushes, next.pending.Keys);
    if Unanswered(w, run) {
      PushIsNotEmpty(w, run);
    } else {
      assert CodesOf(run.hits) <= next.pending.Keys;
    }
  }

  lemma RepeatingIsNotOrderly(w: World)
    requires Repeating(w)
    ensures !Orderly(w)
  {
  }

  /** A run keeps the record in order exactly if its push is answered for and --all requeues nothing pushed. */
  lemma RunStaysOrderly(w: World, run: RunInput)
    requires Orderly(w)
    ensures Orderly(After(w, run)) <==> Careful(w, run)
  {
    if Careful(w, run) {
      CarefulStaysOrderly(w, run);
    } else {
      CarelessRepeats(w, run);
      RepeatingIsNotOrderly(After(w, run));
    }
  }

  /** Every run is careful in the world it starts in. */
  predicate AllCareful(w: World, runs: seq<RunInput>)
    decreases runs
  {
    runs == [] || (Careful(w, runs[0]) && AllCareful(After(w, runs[0]), runs[1..]))
  }

  /** With every push answered for and nothing requeued by --all, each code is pushed at most once. */
  lemma {:induction false} PushedAtMostOnce(w: World, runs: seq<RunInput>)
    requires Orderly(w) && AllCareful(w, runs)
    ensures Orderly(AfterAll(w, runs))
    decreases runs
  {
    if runs != [] {
      RunStaysOrderly(w, runs[0]);
      PushedAtMostOnce(After(w, runs[0]), runs[1..]);
    }
  }

  /** A later run with a webhook that gets its push through. */
  predicate Delivers(run: RunInput) {
    run.webhook && !run.dryRun && Arrives(run.fate)
  }

  /** After an unanswered push, the next push that gets through contains all of it again. */
  lemma UnansweredPushRepeats(w: World, run: RunInput, next: RunInput)
    requires Unanswered(w, run) && Delivers(next)
    ensures var once := After(w, run).pushes;
            var twice := After(After(w, run), next).pushes;
            |once| == |w.pushes| + 1 && |twice| == |once| + 1
            && once[|w.pushes|] != {} && once[|w.pushes|] <= twice[|once|]
  {
    PushIsNotEmpty(w, run);
    RunCodes(After(w, run), next);
  }

  lemma StaysRepeating(w: World, run: RunInput)
    requires Repeating(w)
    ensures Repeating(After(w, run))
    ensures Delivers(run) ==> !PairwiseDisjoint(After(w, run).pushes)
  {
    RunCodes(w, run);
    var next := Working(Loaded(w.disk), run);
    PushedAppend(w.pushes, next.pending.Keys);
    DisjointAppend(w.pushes, next.pending.Keys);
  }

  lemma {:induction false} RunsStayRepeating(w: World, runs: seq<RunInput>)
    requires Repeating(w)
    ensures Repeating(AfterAll(w, runs))
    decreases runs
  {
    if runs != [] {
      StaysRepeating(w, runs[0]);
      RunsStayRepeating(After(w, runs[0]), runs[1..]);
    }
  }

  lemma {:induction false} CarelessRunsRepeat(w: World, runs: seq<RunInput>)
    requires Orderly(w) && !AllCareful(w, runs)
    ensures Repeating(AfterAll(w, runs))
    decreases runs
  {
    if Careful(w, runs[0]) {
      RunStaysOrderly(w, runs[0]);
      CarelessRunsRepeat(After(w, runs[0]), runs[1..]);
    } else {
      CarelessRepeats(w, runs[0]);
      RunsStayRepeating(After(w, runs[0]), runs[1..]);
    }
  }

  /** Followed by a careful run that delivers, runs push each code at most once exactly if all are careful. */
  lemma PushedTwiceExactly(w: World, runs: seq<RunInput>, last: RunInput)
    requires Orderly(w) && Delivers(last) && !last.all && last.fate.Completes?
    ensures PairwiseDisjoint(After(AfterAll(w, runs), last).pushes) <==> AllCareful(w, runs)
  {
    if AllCareful(w, runs) {
      PushedAtMostOnce(w, runs);
      RunStaysOrderly(AfterAll(w, runs), last);
    } else {
      CarelessRunsRepeat(w, runs);
      StaysRepeating(AfterAll(w, runs), last);
    }
  }

  /** A code seen and not queued is never pushed by runs without --all, whatever their fate. */
  lemma {:induction false} NeverResent(w: World, runs: seq<RunInput>, c: Code)
    requires c in Seen(w) && c !in Pending(w)
    requires forall r :: r in runs ==> !r.all
    ensures var w' := AfterAll(w, runs);
            c in Seen(w') && c !in Pending(w')
            && w.pushes <= w'.pushes && forall i :: |w.pushes| <= i < |w'.pushes| ==> c !in w'.pushes[i]
    decreases runs
  {
    if runs != [] {
      RunCodes(w, runs[0]);
      NeverResent(After(w, runs[0]), runs[1..], c);
    }
  }

  /** A lost reply, or a death between push and save, on a first run: an idle second run pushes again. */
  lemma FirstPushRepeats(a: Announcement, fate: Fate)
    requires fate.ReplyLost? || fate.DiesAfterPush?
    ensures var first, second := RunInput([a], true, true, false, fate), RunInput([], false, true, false, Completes);
            !PairwiseDisjoint(After(After(World(None, []), first), second).pushes)
  {
    var w, first, second := World(None, []), RunInput([a], true, true, false, fate),
                            RunInput([], false, true, false, Completes);
    UnansweredPushRepeats(w, first, second);
    var twice := After(After(w, first), second).pushes;
    assert After(w, first).pushes[0] == twice[0] && twice[0] <= twice[1];
  }
}
