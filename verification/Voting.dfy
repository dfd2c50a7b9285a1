/** Voting on a hit: from the vote to update operations, through the workflow and the script, to the stored lists. */
module Voting {
  import opened Wrappers
  import opened Script
  import opened ScriptText
  import opened Workflow

  const BENIGN := "benign"
  const OBSCURE := "obscure"
  const MALICIOUS := "malicious"
  const ASSIGNMENT := "howler.assignment"
  const STATUS := "howler.status"
  const VOTES := "howler.votes."

  function ListKey(vote: string): string { VOTES + vote }

  predicate IsVote(vote: string) { vote in [MALICIOUS, OBSCURE, BENIGN] }

  // ---------------------------------------------------------------- the lists of votes

  /** The three lists are there. */
  predicate HasVotes(doc: Document) {
    Get(doc, ListKey(BENIGN)).Items? && Get(doc, ListKey(OBSCURE)).Items? && Get(doc, ListKey(MALICIOUS)).Items?
  }

  function Voters(doc: Document, vote: string): seq<Value> {
    var v := Get(doc, ListKey(vote));
    if v.Items? then v.items else []
  }

  function Count(xs: seq<Value>, x: Value): nat {
    multiset(xs)[x]
  }

  /** How often `x` has voted. */
  function Cast(doc: Document, x: Value): nat {
    Count(Voters(doc, BENIGN), x) + Count(Voters(doc, OBSCURE), x) + Count(Voters(doc, MALICIOUS), x)
  }

  ghost predicate AtMostOnce(doc: Document) {
    HasVotes(doc) && forall x :: Cast(doc, x) <= 1
  }

  // ---------------------------------------------------------------- the operations of a vote

  /** The list that has the voter, looked up in this order. */
  function OldVote(hit: Document, email: string): Option<string> {
    if Text(email) in Voters(hit, BENIGN) then Some(BENIGN)
    else if Text(email) in Voters(hit, OBSCURE) then Some(OBSCURE)
    else if Text(email) in Voters(hit, MALICIOUS) then Some(MALICIOUS)
    else None
  }

  /** Leave the old list; join the new one unless it is the same. */
  function Ballot(hit: Document, vote: string, email: string): seq<Operation> {
    var was := OldVote(hit, email);
    (if was.Some? then [Operation(Remove, ListKey(was.value), Text(email))] else [])
    + (if was != Some(vote) then [Operation(AppendIfMissing, ListKey(vote), Text(email))] else [])
  }

  predicate Assigned(hit: Document, user: Option<string>) {
    user.Some? && Get(hit, ASSIGNMENT) == Text(user.value)
  }

  predicate Releasable(hit: Document) {
    Get(hit, STATUS) == Text("in-progress") || Get(hit, STATUS) == Text("open")
  }

  const RELEASE := [Operation(Set, ASSIGNMENT, Text("unassigned")), Operation(Set, STATUS, Text("open"))]

  function VoteOperations(hit: Document, vote: string, email: string, user: Option<string>): Option<seq<Operation>> {
    if email == "" || !IsVote(vote) || (Assigned(hit, user) && !Releasable(hit)) then None
    else Some(Ballot(hit, vote, email) + (if Assigned(hit, user) then RELEASE else []))
  }

  lemma KeysOfVotes(a: string, b: string)
    requires IsVote(a) && IsVote(b)
    ensures ListKey(a) == ListKey(b) <==> a == b
    ensures ListKey(a) != ASSIGNMENT && ListKey(a) != STATUS && ASSIGNMENT != STATUS
  {
    assert ListKey(a)[|VOTES|..] == a && ListKey(b)[|VOTES|..] == b;
    assert ListKey(a)[7] == 'v' && ASSIGNMENT[7] == 'a' && STATUS[7] == 's';
  }

  /** The merge leaves operations on different fields alone. */
  lemma {:induction false} MergeOfDifferent(ops: seq<Operation>)
    requires KeysDiffer(ops)
    ensures Merge(ops) == Some(ops)
  {
    if ops != [] {
      var init, last := ops[..|ops| - 1], ops[|ops| - 1];
      MergeOfDifferent(init);
      PutNew(init, last);
      assert init + [last] == ops;
    }
  }

  lemma {:induction false} PutNew(ops: seq<Operation>, u: Operation)
    requires forall i :: 0 <= i < |ops| ==> ops[i].key != u.key
    ensures Put(ops, u) == ops + [u]
  {
    if ops != [] {
      PutNew(ops[1..], u);
      assert ops == [ops[0]] + ops[1..];
    }
  }

  // ---------------------------------------------------------------- what one vote does

  /** The document after a ballot: the voter's old vote is gone and, unless repeated, the new one is cast. */
  function Voted(doc: Document, vote: string, email: string): Document {
    var was := OldVote(doc, email);
    var left := if was.None? then doc
                else doc[ListKey(was.value) := Items(RemoveFirst(Voters(doc, was.value), Text(email)))];
    if was == Some(vote) then left else left[ListKey(vote) := Items(Voters(doc, vote) + [Text(email)])]
  }

  lemma {:induction false} RemoveFirstCounts(xs: seq<Value>, x: Value)
    requires x in xs
    ensures multiset(RemoveFirst(xs, x)) == multiset(xs) - multiset{x}
  {
    assert xs == [xs[0]] + xs[1..];
    if xs[0] != x {
      RemoveFirstCounts(xs[1..], x);
    }
  }

  lemma AppliedTwice(a: Operation, b: Operation, doc: Document)
    ensures ApplyAll([a], doc) == Apply(a, doc)
    ensures ApplyAll([a, b], doc) == (var d := Apply(a, doc); if d.None? then None else Apply(b, d.value))
  {
    assert [a][..0] == [] && [a, b][..1] == [a];
    assert ApplyAll([], doc) == Some(doc);
  }

  lemma BallotApplies(doc: Document, vote: string, email: string)
    requires HasVotes(doc) && IsVote(vote) && (forall x :: Cast(doc, x) <= 1)
    ensures ApplyAll(Ballot(doc, vote, email), doc) == Some(Voted(doc, vote, email))
  {
    var was := OldVote(doc, email);
    var join := Operation(AppendIfMissing, ListKey(vote), Text(email));
    KeysOfVotes(vote, vote);
    OnlyOldVote(doc, email);
    if was.Some? {
      KeysOfVotes(was.value, vote);
      AppliedTwice(Operation(Remove, ListKey(was.value), Text(email)), join, doc);
    } else {
      AppliedTwice(join, join, doc);
      assert [] + [join] == [join];
    }
  }

  /** The voter is in no list but the one found first. */
  lemma OnlyOldVote(doc: Document, email: string)
    requires forall x :: Cast(doc, x) <= 1
    ensures forall v :: IsVote(v) && OldVote(doc, email) != Some(v) ==> Text(email) !in Voters(doc, v)
    ensures OldVote(doc, email).Some? ==>
      IsVote(OldVote(doc, email).value) && Text(email) in Voters(doc, OldVote(doc, email).value)
  {
    assert Cast(doc, Text(email)) <= 1;
  }

  /** After a ballot the voter is in the chosen list alone, or nowhere when the vote repeated the old one; nobody
      else's votes change. */
  ghost predicate Counted(before: Document, after: Document, vote: string, email: string) {
    && HasVotes(after)
    && (forall v, x :: IsVote(v) && x != Text(email) ==> Count(Voters(after, v), x) == Count(Voters(before, v), x))
    && (forall v :: IsVote(v) ==>
          Count(Voters(after, v), Text(email)) == (if v == vote && Text(email) !in Voters(before, vote) then 1 else 0))
  }

  lemma VotedLists(doc: Document, vote: string, email: string, v: string)
    requires HasVotes(doc) && IsVote(vote) && IsVote(v) && (forall x :: Cast(doc, x) <= 1)
    ensures var was := OldVote(doc, email);
            Voters(Voted(doc, vote, email), v)
            == if was == Some(v) then RemoveFirst(Voters(doc, v), Text(email))
               else if v == vote then Voters(doc, v) + [Text(email)]
               else Voters(doc, v)
    ensures Get(Voted(doc, vote, email), ListKey(v)).Items?
  {
    OnlyOldVote(doc, email);
    KeysOfVotes(v, vote);
    if OldVote(doc, email).Some? {
      KeysOfVotes(v, OldVote(doc, email).value);
      KeysOfVotes(vote, OldVote(doc, email).value);
    }
  }

  lemma VotedCounts(doc: Document, vote: string, email: string)
    requires HasVotes(doc) && IsVote(vote) && (forall x :: Cast(doc, x) <= 1)
    ensures Counted(doc, Voted(doc, vote, email), vote, email)
  {
    var after := Voted(doc, vote, email);
    OnlyOldVote(doc, email);
    VotedLists(doc, vote, email, BENIGN);
    VotedLists(doc, vote, email, OBSCURE);
    VotedLists(doc, vote, email, MALICIOUS);
    forall v | IsVote(v)
      ensures forall x :: x != Text(email) ==> Count(Voters(after, v), x) == Count(Voters(doc, v), x)
      ensures Count(Voters(after, v), Text(email)) == (if v == vote && Text(email) !in Voters(doc, vote) then 1 else 0)
    {
      VotedLists(doc, vote, email, v);
      ListCount(doc, vote, email, v);
    }
  }

  lemma ListCount(doc: Document, vote: string, email: string, v: string)
    requires HasVotes(doc) && IsVote(vote) && IsVote(v) && (forall x :: Cast(doc, x) <= 1)
    requires Voters(Voted(doc, vote, email), v)
      == if OldVote(doc, email) == Some(v) then RemoveFirst(Voters(doc, v), Text(email))
         else if v == vote then Voters(doc, v) + [Text(email)]
         else Voters(doc, v)
    ensures var after := Voted(doc, vote, email);
            && (forall x :: x != Text(email) ==> Count(Voters(after, v), x) == Count(Voters(doc, v), x))
            && Count(Voters(after, v), Text(email)) == (if v == vote && Text(email) !in Voters(doc, vote) then 1 else 0)
  {
    OnlyOldVote(doc, email);
    assert Cast(doc, Text(email)) <= 1;
    if OldVote(doc, email) == Some(v) {
      RemoveFirstCounts(Voters(doc, v), Text(email));
    } else if v == vote {
      assert multiset(Voters(doc, v) + [Text(email)]) == multiset(Voters(doc, v)) + multiset{Text(email)};
    }
  }

  /** Counting votes that way keeps at most one per voter. */
  lemma CountedKeepsOne(before: Document, after: Document, vote: string, email: string)
    requires AtMostOnce(before) && Counted(before, after, vote, email)
    ensures AtMostOnce(after)
  {
    forall x ensures Cast(after, x) <= 1 {
      assert IsVote(BENIGN) && IsVote(OBSCURE) && IsVote(MALICIOUS);
      assert Cast(before, x) <= 1;
    }
  }

  /** Operations on other fields do not touch the lists. */
  lemma OtherFieldsKeepVotes(doc: Document, after: Document)
    requires forall v :: IsVote(v) ==> Get(after, ListKey(v)) == Get(doc, ListKey(v))
    ensures forall v :: IsVote(v) ==> Voters(after, v) == Voters(doc, v)
    ensures HasVotes(doc) ==> HasVotes(after)
  {
    assert IsVote(BENIGN) && IsVote(OBSCURE) && IsVote(MALICIOUS);
  }

  // ---------------------------------------------------------------- a vote through the workflow

  lemma {:induction false} ApplyAllConcat(a: seq<Operation>, b: seq<Operation>, doc: Document)
    ensures ApplyAll(a + b, doc) == (var mid := ApplyAll(a, doc); if mid.None? then None else ApplyAll(b, mid.value))
  {
    var all := a + b;
    if b == [] {
      assert all == a;
    } else {
      assert all[..|all| - 1] == a + b[..|b| - 1];
      ApplyAllConcat(a, b[..|b| - 1], doc);
    }
  }

  /** Assignments of the assignee and the status. */
  predicate Bookkeeping(ops: seq<Operation>) {
    forall op :: op in ops ==> op.kind == Set && (op.key == ASSIGNMENT || op.key == STATUS)
  }

  lemma {:induction false} BookkeepingKeepsVotes(ops: seq<Operation>, doc: Document)
    requires Bookkeeping(ops)
    ensures ApplyAll(ops, doc).Some?
    ensures forall v :: IsVote(v) ==> Get(ApplyAll(ops, doc).value, ListKey(v)) == Get(doc, ListKey(v))
  {
    if ops != [] {
      assert ops[|ops| - 1] in ops && ops == ops[..|ops| - 1] + [ops[|ops| - 1]];
      BookkeepingKeepsVotes(ops[..|ops| - 1], doc);
      forall v | IsVote(v) ensures ListKey(v) != ASSIGNMENT && ListKey(v) != STATUS {
        KeysOfVotes(v, v);
      }
    }
  }

  lemma BallotKeys(hit: Document, vote: string, email: string)
    requires IsVote(vote)
    ensures KeysDiffer(Ballot(hit, vote, email))
    ensures forall op :: op in Ballot(hit, vote, email) ==> op.key != ASSIGNMENT && op.key != STATUS
  {
    KeysOfVotes(vote, vote);
    if OldVote(hit, email).Some? {
      KeysOfVotes(OldVote(hit, email).value, vote);
    }
  }

  lemma DifferTogether(a: seq<Operation>, b: seq<Operation>)
    requires KeysDiffer(a) && KeysDiffer(b) && forall x, y :: x in a && y in b ==> x.key != y.key
    ensures KeysDiffer(a + b)
  {
    forall i, j | 0 <= i < j < |a + b| ensures (a + b)[i].key != (a + b)[j].key {
      if i < |a| && j >= |a| {
        assert a[i] in a && b[j - |a|] in b;
      }
    }
  }

  /** Voting on a hit one is assigned to fails unless the transition leads back to the open status. */
  predicate ReleaseClashes(hit: Document, user: Option<string>, dest: Option<string>) {
    Assigned(hit, user) && dest.Some? && dest.value != "open"
  }

  lemma VoteMerges(hit: Document, vote: string, email: string, user: Option<string>, dest: Option<string>)
    returns (rest: seq<Operation>)
    requires IsVote(vote) && VoteOperations(hit, vote, email, user).Some?
    ensures var merged := Merge(VoteOperations(hit, vote, email, user).value + DestUpdate(STATUS, dest));
            && (merged.None? <==> ReleaseClashes(hit, user, dest))
            && (merged.Some? ==> merged.value == Ballot(hit, vote, email) + rest)
    ensures Bookkeeping(rest)
    ensures rest == if Assigned(hit, user) then RELEASE else DestUpdate(STATUS, dest)
  {
    var ballot := Ballot(hit, vote, email);
    BallotKeys(hit, vote, email);
    if !Assigned(hit, user) {
      rest := DestUpdate(STATUS, dest);
      assert ballot + [] == ballot;
      DifferTogether(ballot, rest);
      MergeOfDifferent(ballot + rest);
    } else {
      rest := RELEASE;
      ReleaseMerges(ballot, dest);
    }
  }

  lemma ReleaseMerges(ballot: seq<Operation>, dest: Option<string>)
    requires KeysDiffer(ballot) && forall op :: op in ballot ==> op.key != ASSIGNMENT && op.key != STATUS
    ensures var merged := Merge(ballot + RELEASE + DestUpdate(STATUS, dest));
            if dest.Some? && dest.value != "open" then merged.None? else merged == Some(ballot + RELEASE)
    ensures Bookkeeping(RELEASE)
  {
    KeysOfVotes(BENIGN, BENIGN);
    DifferTogether(ballot, RELEASE);
    MergeOfDifferent(ballot + RELEASE);
    assert RELEASE[1] in RELEASE;
    if dest.Some? {
      var u := Operation(Set, STATUS, Text(dest.value));
      assert ((ballot + RELEASE) + [u])[..|ballot| + 2] == ballot + RELEASE;
      StatusAgain(ballot, u);
    } else {
      assert (ballot + RELEASE) + [] == ballot + RELEASE;
    }
  }

  lemma StatusAgain(ballot: seq<Operation>, u: Operation)
    requires u.key == STATUS && u.kind == Set && forall op :: op in ballot ==> op.key != STATUS
    ensures Clashes(ballot + RELEASE, u) <==> u.value != Text("open")
    ensures u.value == Text("open") ==> Put(ballot + RELEASE, u) == ballot + RELEASE
  {
    var all := ballot + RELEASE;
    assert all[|ballot| + 1] == RELEASE[1];
    forall i | 0 <= i < |ballot| ensures all[i].key != STATUS { assert ballot[i] in ballot; }
    if u.value == Text("open") {
      assert all[|ballot|].key != STATUS;
      PutSame(all, u, |ballot| + 1);
    }
  }

  lemma {:induction false} PutSame(ops: seq<Operation>, u: Operation, at: nat)
    requires at < |ops| && ops[at] == u && forall i :: 0 <= i < at ==> ops[i].key != u.key
    ensures Put(ops, u) == ops
  {
    assert ops == [ops[0]] + ops[1..];
    if at > 0 {
      PutSame(ops[1..], u, at - 1);
    }
  }

  /** A merged vote counts as one vote. */
  lemma VoteCounts(doc: Document, vote: string, email: string, rest: seq<Operation>)
    requires AtMostOnce(doc) && IsVote(vote) && Bookkeeping(rest)
    ensures var after := ApplyAll(Ballot(doc, vote, email) + rest, doc);
            && after.Some? && Counted(doc, after.value, vote, email) && AtMostOnce(after.value)
  {
    var ballot, voted := Ballot(doc, vote, email), Voted(doc, vote, email);
    BallotApplies(doc, vote, email);
    ApplyAllConcat(ballot, rest, doc);
    BookkeepingKeepsVotes(rest, voted);
    VotedCounts(doc, vote, email);
    OtherFieldsKeepVotes(voted, ApplyAll(rest, voted).value);
    CountedKeepsOne(doc, ApplyAll(rest, voted).value, vote, email);
  }

  // ---------------------------------------------------------------- the action

  /** The document after a vote: the vote counted, the hit released when the voter was assigned to it, and no other
      field touched. */
  ghost predicate VotedOn(before: Document, after: Document, vote: string, email: string, release: bool) {
    && AtMostOnce(after) && Counted(before, after, vote, email)
    && (release ==> Get(after, ASSIGNMENT) == Text("unassigned") && Get(after, STATUS) == Text("open"))
    && (forall k :: !VoteField(k) && (release ==> k != ASSIGNMENT && k != STATUS) ==> Get(after, k) == Get(before, k))
  }

  predicate VoteField(key: string) {
    key in {ListKey(BENIGN), ListKey(OBSCURE), ListKey(MALICIOUS)}
  }

  lemma VotedElsewhere(doc: Document, vote: string, email: string, key: string)
    requires IsVote(vote) && !VoteField(key)
    ensures Get(Voted(doc, vote, email), key) == Get(doc, key)
  {
    assert VoteField(ListKey(vote));
    if OldVote(doc, email).Some? {
      assert VoteField(ListKey(OldVote(doc, email).value));
    }
  }

  lemma ReleaseApplies(doc: Document)
    ensures ApplyAll(RELEASE, doc) == Some(doc[ASSIGNMENT := Text("unassigned")][STATUS := Text("open")])
    ensures ASSIGNMENT != STATUS && !VoteField(ASSIGNMENT) && !VoteField(STATUS)
  {
    KeysOfVotes(BENIGN, OBSCURE);
    KeysOfVotes(MALICIOUS, OBSCURE);
    AppliedTwice(RELEASE[0], RELEASE[1], doc);
  }

  /** What the operations of a vote do to the hit they were computed from. */
  lemma VoteMeans(hit: Document, vote: string, email: string, user: Option<string>)
    requires AtMostOnce(hit) && VoteOperations(hit, vote, email, user).Some?
    ensures var after := ApplyAll(VoteOperations(hit, vote, email, user).value, hit);
            after.Some? && VotedOn(hit, after.value, vote, email, Assigned(hit, user))
  {
    var rest := if Assigned(hit, user) then RELEASE else [];
    var voted := Voted(hit, vote, email);
    VoteCounts(hit, vote, email, rest);
    BallotApplies(hit, vote, email);
    ApplyAllConcat(Ballot(hit, vote, email), rest, hit);
    ReleaseApplies(voted);
    forall k | !VoteField(k) ensures Get(voted, k) == Get(hit, k) {
      VotedElsewhere(hit, vote, email, k);
    }
  }

  /** `vote_hit`; `None` for the exception. */
  method VoteHit(hit: Document, vote: string, email: string, user: Option<string>) returns (r: Option<seq<Operation>>)
    ensures r.None? <==> email == "" || !IsVote(vote) || (Assigned(hit, user) && !Releasable(hit))
    ensures r.Some? && AtMostOnce(hit) ==>
      ApplyAll(r.value, hit).Some? && VotedOn(hit, ApplyAll(r.value, hit).value, vote, email, Assigned(hit, user))
    ensures r == VoteOperations(hit, vote, email, user)
  {
    if email == "" { return None; }
    if !IsVote(vote) || vote == "" { return None; }
    var actions: seq<Operation> := [];
    var was := OldVote(hit, email);
    if was.Some? {
      actions := actions + [Operation(Remove, ListKey(was.value), Text(email))];
    }
    if was.None? || was.value != vote {
      actions := actions + [Operation(AppendIfMissing, ListKey(vote), Text(email))];
    }
    ghost var ballot := Ballot(hit, vote, email);
    assert actions == ballot;
    if Assigned(hit, user) {
      if Releasable(hit) {
        actions := actions + [Operation(Set, ASSIGNMENT, Text("unassigned"))];
        actions := actions + [Operation(Set, STATUS, Text("open"))];
      } else {
        return None;
      }
    }
    assert actions == ballot + (if Assigned(hit, user) then RELEASE else []);
    if AtMostOnce(hit) {
      VoteMeans(hit, vote, email, user);
    }
    return Some(actions);
  }

  /** Every transition called `vote` runs `vote_hit` and nothing else. */
  ghost predicate VotingTable(table: map<string, Transition>) {
    forall current :: Find(table, current, "vote").Some? ==> Find(table, current, "vote").value.actions == ["vote_hit"]
  }

  /** Whether a vote is refused: no email, no such vote, no transition from the status, or an assigned voter whose hit
      cannot go back to open. */
  predicate Refused(table: map<string, Transition>, hit: Document, current: string, vote: string, email: string,
                    user: Option<string>)
  {
    var t := Find(table, current, "vote");
    || email == "" || !IsVote(vote) || t.None? || !Admits(t.value, current)
    || (Assigned(hit, user) && !Releasable(hit)) || ReleaseClashes(hit, user, t.value.dest)
  }

  lemma VoteYields(table: map<string, Transition>, doc: Document, current: string, vote: string, email: string,
                   user: Option<string>,
                   run: string -> Option<seq<Operation>>)
    returns (rest: seq<Operation>)
    requires VotingTable(table) && run("vote_hit") == VoteOperations(doc, vote, email, user)
    ensures Yield(table, STATUS, current, "vote", run).None? <==> Refused(table, doc, current, vote, email, user)
    ensures !Refused(table, doc, current, vote, email, user) ==>
      && Yield(table, STATUS, current, "vote", run) == Some(Ballot(doc, vote, email) + rest)
      && rest == if Assigned(doc, user) then RELEASE else DestUpdate(STATUS, Find(table, current, "vote").value.dest)
    ensures Bookkeeping(rest)
  {
    rest := [];
    var t := Find(table, current, "vote");
    if t.Some? {
      assert ["vote_hit"][..0] == [];
      assert Collected([], run) == Some([]);
      var nothing: seq<Operation> := [];
      assert run("vote_hit").Some? ==> nothing + run("vote_hit").value == run("vote_hit").value;
      assert Collected(["vote_hit"], run) == run("vote_hit");
      if VoteOperations(doc, vote, email, user).Some? {
        rest := VoteMerges(doc, vote, email, user, t.value.dest);
      }
    }
  }

  /** The document after a vote through the workflow: the vote counted, the hit released when the voter was assigned to
      it, its status that of the transition, and no other field touched. */
  ghost predicate CastOn(before: Document, after: Document, vote: string, email: string, release: bool,
                         dest: Option<string>)
  {
    && AtMostOnce(after) && Counted(before, after, vote, email)
    && Get(after, ASSIGNMENT) == (if release then Text("unassigned") else Get(before, ASSIGNMENT))
    && Get(after, STATUS)
       == (if dest.Some? then Text(dest.value) else if release then Text("open") else Get(before, STATUS))
    && (forall k :: !VoteField(k) && k != ASSIGNMENT && k != STATUS ==> Get(after, k) == Get(before, k))
  }

  /** What the bookkeeping after a ballot does. */
  lemma BookkeepingApplies(doc: Document, release: bool, dest: Option<string>)
    requires release && dest.Some? ==> dest.value == "open"
    ensures var after := ApplyAll(if release then RELEASE else DestUpdate(STATUS, dest), doc);
            && after.Some?
            && Get(after.value, ASSIGNMENT) == (if release then Text("unassigned") else Get(doc, ASSIGNMENT))
            && Get(after.value, STATUS)
               == (if dest.Some? then Text(dest.value) else if release then Text("open") else Get(doc, STATUS))
            && (forall k :: k != ASSIGNMENT && k != STATUS ==> Get(after.value, k) == Get(doc, k))
  {
    ReleaseApplies(doc);
    if dest.Some? {
      var op := Operation(Set, STATUS, Text(dest.value));
      AppliedTwice(op, op, doc);
    }
  }

  /** What a ballot and the bookkeeping after it come to. */
  lemma CastMeans(doc: Document, vote: string, email: string, user: Option<string>, dest: Option<string>,
                  rest: seq<Operation>)
    requires AtMostOnce(doc) && IsVote(vote) && !ReleaseClashes(doc, user, dest)
    requires rest == if Assigned(doc, user) then RELEASE else DestUpdate(STATUS, dest)
    ensures var after := ApplyAll(Ballot(doc, vote, email) + rest, doc);
            after.Some? && CastOn(doc, after.value, vote, email, Assigned(doc, user), dest)
  {
    var voted := Voted(doc, vote, email);
    VoteCounts(doc, vote, email, rest);
    BallotApplies(doc, vote, email);
    ApplyAllConcat(Ballot(doc, vote, email), rest, doc);
    BookkeepingApplies(voted, Assigned(doc, user), dest);
    ReleaseApplies(doc);
    forall k | !VoteField(k) ensures Get(voted, k) == Get(doc, k) {
      VotedElsewhere(doc, vote, email, k);
    }
  }

  /** The fields of a vote are words of the script language. */
  lemma VoteWords(hit: Document, vote: string, email: string, rest: seq<Operation>)
    requires IsVote(vote) && Bookkeeping(rest)
    ensures forall op :: op in Ballot(hit, vote, email) + rest ==> IsWord(op.key)
  {
    assert IsWord(VOTES) && IsWord(BENIGN) && IsWord(OBSCURE) && IsWord(MALICIOUS);
    assert IsWord(ASSIGNMENT) && IsWord(STATUS);
    assert OldVote(hit, email).Some? ==> IsVote(OldVote(hit, email).value);
    forall v | IsVote(v) ensures IsWord(ListKey(v)) {
    }
  }

  /** One vote: the operations, the workflow's merge, the script, and its text run on the document. A refused vote
      changes nothing. */
  method CastVote(workflow: Workflow, doc: Document, current: string, vote: string, email: string, user: Option<string>)
    returns (r: Option<Document>)
    requires AtMostOnce(doc) && VotingTable(workflow.transitions) && workflow.statusProp == STATUS
    modifies workflow`currentStatus
    ensures r.None? <==> Refused(workflow.transitions, doc, current, vote, email, user)
    ensures r.None? ==> workflow.currentStatus == old(workflow.currentStatus)
    ensures r.Some? ==>
      var dest := Find(workflow.transitions, current, "vote").value.dest;
      && CastOn(doc, r.value, vote, email, Assigned(doc, user), dest)
      && workflow.currentStatus == if dest.Some? then dest else Some(current)
  {
    var operations := VoteHit(doc, vote, email, user);
    var run := (action: string) => if action == "vote_hit" then operations else None;
    ghost var rest := VoteYields(workflow.transitions, doc, current, vote, email, user, run);
    var updates := workflow.Transition(current, "vote", run);
    if updates.None? {
      return None;
    }
    VoteWords(doc, vote, email, rest);
    var source, params := CreateScript(updates.value);
    r := RunText(source, doc, params);
    WordsOnOneLine(updates.value);
    TextDoesOperations(updates.value, doc, params);
    CastMeans(doc, vote, email, user, Find(workflow.transitions, current, "vote").value.dest, rest);
  }

  lemma WordsOnOneLine(ops: seq<Operation>)
    requires forall op :: op in ops ==> IsWord(op.key)
    ensures forall op :: op in ops ==> '\n' !in op.key
  {
    forall op | op in ops ensures '\n' !in op.key {
      assert IsWord(op.key);
    }
  }

  datatype Ballots = Ballots(current: string, vote: string, email: string, user: Option<string>)

  /** Consecutive documents of a run of votes: a refused vote leaves the document, any other one is cast on it. */
  ghost predicate VoteStep(table: map<string, Transition>, before: Document, after: Document, b: Ballots) {
    if Refused(table, before, b.current, b.vote, b.email, b.user) then after == before
    else CastOn(before, after, b.vote, b.email, Assigned(before, b.user), Find(table, b.current, "vote").value.dest)
  }

  /** Any run of votes, each computed from the document it is applied to. */
  method CastVotes(workflow: Workflow, start: Document, votes: seq<Ballots>)
    returns (doc: Document, ghost docs: seq<Document>)
    requires AtMostOnce(start) && VotingTable(workflow.transitions) && workflow.statusProp == STATUS
    modifies workflow`currentStatus
    ensures AtMostOnce(doc)
    ensures |docs| == |votes| + 1 && docs[0] == start && docs[|votes|] == doc
    ensures forall k :: 0 <= k < |votes| ==> VoteStep(workflow.transitions, docs[k], docs[k + 1], votes[k])
  {
    doc, docs := start, [start];
    for k := 0 to |votes|
      invariant AtMostOnce(doc)
      invariant |docs| == k + 1 && docs[0] == start && docs[k] == doc
      invariant forall i :: 0 <= i < k ==> VoteStep(workflow.transitions, docs[i], docs[i + 1], votes[i])
    {
      var b := votes[k];
      var r := CastVote(workflow, doc, b.current, b.vote, b.email, b.user);
      if r.Some? {
        doc := r.value;
      }
      docs := docs + [doc];
    }
  }

  /** A vote repeated is a vote withdrawn. */
  lemma RepeatWithdraws(a: Document, b: Document, c: Document, vote: string, email: string)
    requires IsVote(vote) && Counted(a, b, vote, email) && Counted(b, c, vote, email) && Text(email) !in Voters(a, vote)
    ensures Cast(b, Text(email)) == 1 && Text(email) in Voters(b, vote)
    ensures Cast(c, Text(email)) == 0
  {
    assert IsVote(BENIGN) && IsVote(OBSCURE) && IsVote(MALICIOUS);
    assert Count(Voters(b, vote), Text(email)) == 1;
  }

  // ---------------------------------------------------------------- a vote computed from an older document

  /** How a list looks after the ballot of an older `hit` is applied to `doc`. */
  function LateVoters(hit: Document, doc: Document, vote: string, email: string, v: string): seq<Value> {
    var xs, me, was := Voters(doc, v), Text(email), OldVote(hit, email);
    if was == Some(v) then (if me in xs then RemoveFirst(xs, me) else xs)
    else if v == vote && was != Some(vote) then (if me in xs then xs else xs + [me])
    else xs
  }

  /** The lists after such a ballot. */
  ghost predicate LateLists(hit: Document, doc: Document, vote: string, email: string, after: Document) {
    forall v :: IsVote(v) ==> Get(after, ListKey(v)) == Items(LateVoters(hit, doc, vote, email, v))
  }

  lemma LateListsFacts(hit: Document, doc: Document, vote: string, email: string, after: Document)
    requires LateLists(hit, doc, vote, email, after)
    ensures HasVotes(after) && forall v :: IsVote(v) ==> Voters(after, v) == LateVoters(hit, doc, vote, email, v)
  {
    assert IsVote(BENIGN) && IsVote(OBSCURE) && IsVote(MALICIOUS);
  }

  /** Leaving a list. */
  lemma LeaveApplies(doc: Document, key: string, x: Value)
    requires Get(doc, key).Items?
    ensures var (after, xs) := (Apply(Operation(Remove, key, x), doc), Get(doc, key).items);
            && after.Some? && Get(after.value, key) == Items(if x in xs then RemoveFirst(xs, x) else xs)
            && forall k :: k != key ==> Get(after.value, k) == Get(doc, k)
  {
  }

  /** Joining a list. */
  lemma JoinApplies(doc: Document, key: string, x: Value)
    requires Get(doc, key).Items?
    ensures var (after, xs) := (Apply(Operation(AppendIfMissing, key, x), doc), Get(doc, key).items);
            && after.Some? && Get(after.value, key) == Items(if x in xs then xs else xs + [x])
            && forall k :: k != key ==> Get(after.value, k) == Get(doc, k)
  {
  }

  lemma HasVote(doc: Document, v: string)
    requires HasVotes(doc) && IsVote(v)
    ensures Get(doc, ListKey(v)) == Items(Voters(doc, v))
  {
  }

  lemma LateJoin(hit: Document, doc: Document, vote: string, email: string)
    requires HasVotes(doc) && IsVote(vote) && OldVote(hit, email).None?
    ensures var after := ApplyAll(Ballot(hit, vote, email), doc);
            after.Some? && LateLists(hit, doc, vote, email, after.value)
  {
    var join := Operation(AppendIfMissing, ListKey(vote), Text(email));
    AppliedTwice(join, join, doc);
    assert Ballot(hit, vote, email) == [join];
    HasVote(doc, vote);
    JoinApplies(doc, ListKey(vote), Text(email));
    forall v | IsVote(v)
      ensures (ListKey(v) == ListKey(vote) <==> v == vote) && Get(doc, ListKey(v)) == Items(Voters(doc, v))
    {
      KeysOfVotes(v, vote);
      HasVote(doc, v);
    }
  }

  lemma LateLeave(hit: Document, doc: Document, vote: string, email: string)
    requires HasVotes(doc) && IsVote(vote) && OldVote(hit, email) == Some(vote)
    ensures var after := ApplyAll(Ballot(hit, vote, email), doc);
            after.Some? && LateLists(hit, doc, vote, email, after.value)
  {
    var leave := Operation(Remove, ListKey(vote), Text(email));
    AppliedTwice(leave, leave, doc);
    assert Ballot(hit, vote, email) == [leave];
    HasVote(doc, vote);
    LeaveApplies(doc, ListKey(vote), Text(email));
    forall v | IsVote(v)
      ensures (ListKey(v) == ListKey(vote) <==> v == vote) && Get(doc, ListKey(v)) == Items(Voters(doc, v))
    {
      KeysOfVotes(v, vote);
      HasVote(doc, v);
    }
  }

  lemma LateChange(hit: Document, doc: Document, vote: string, email: string, was: string)
    requires HasVotes(doc) && IsVote(vote) && IsVote(was) && OldVote(hit, email) == Some(was) && was != vote
    ensures var after := ApplyAll(Ballot(hit, vote, email), doc);
            after.Some? && LateLists(hit, doc, vote, email, after.value)
  {
    var me := Text(email);
    var leave, join := Operation(Remove, ListKey(was), me), Operation(AppendIfMissing, ListKey(vote), me);
    AppliedTwice(leave, join, doc);
    assert Ballot(hit, vote, email) == [leave, join];
    HasVote(doc, was);
    HasVote(doc, vote);
    KeysOfVotes(was, vote);
    LeaveApplies(doc, ListKey(was), me);
    var mid := Apply(leave, doc).value;
    JoinApplies(mid, ListKey(vote), me);
    var after := Apply(join, mid).value;
    forall v | IsVote(v) ensures Get(after, ListKey(v)) == Items(LateVoters(hit, doc, vote, email, v)) {
      KeysOfVotes(v, vote);
      KeysOfVotes(v, was);
      HasVote(doc, v);
    }
  }

  lemma LateBallot(hit: Document, doc: Document, vote: string, email: string)
    requires HasVotes(doc) && IsVote(vote)
    ensures var after := ApplyAll(Ballot(hit, vote, email), doc);
            after.Some? && LateLists(hit, doc, vote, email, after.value)
  {
    var was := OldVote(hit, email);
    if was.None? {
      LateJoin(hit, doc, vote, email);
    } else if was.value == vote {
      LateLeave(hit, doc, vote, email);
    } else {
      LateChange(hit, doc, vote, email, was.value);
    }
  }

  lemma LateCount(hit: Document, doc: Document, vote: string, email: string, v: string)
    requires AtMostOnce(doc) && IsVote(v)
    ensures forall x :: x != Text(email) ==> Count(LateVoters(hit, doc, vote, email, v), x) == Count(Voters(doc, v), x)
    ensures Count(LateVoters(hit, doc, vote, email, v), Text(email)) ==
      if OldVote(hit, email) == Some(v) then 0
      else if v == vote && OldVote(hit, email) != Some(vote) then 1
      else Count(Voters(doc, v), Text(email))
  {
    var xs, me := Voters(doc, v), Text(email);
    assert Cast(doc, me) <= 1;
    if me in xs {
      RemoveFirstCounts(xs, me);
    }
    assert multiset(xs + [me]) == multiset(xs) + multiset{me};
  }

  lemma LateCasts(hit: Document, doc: Document, vote: string, email: string, after: Document)
    requires AtMostOnce(doc) && LateLists(hit, doc, vote, email, after)
    ensures forall x :: x != Text(email) ==> Cast(after, x) == Cast(doc, x)
  {
    LateListsFacts(hit, doc, vote, email, after);
    assert IsVote(BENIGN) && IsVote(OBSCURE) && IsVote(MALICIOUS);
    LateCount(hit, doc, vote, email, BENIGN);
    LateCount(hit, doc, vote, email, OBSCURE);
    LateCount(hit, doc, vote, email, MALICIOUS);
  }

  /** The voter is counted once, in the list found. */
  lemma CountOfVoter(doc: Document, email: string, v: string)
    requires AtMostOnce(doc) && IsVote(v)
    ensures Count(Voters(doc, v), Text(email)) == if OldVote(doc, email) == Some(v) then 1 else 0
  {
    OnlyOldVote(doc, email);
    assert Cast(doc, Text(email)) <= 1;
  }

  lemma LateCountOfVoter(hit: Document, doc: Document, vote: string, email: string, v: string)
    requires AtMostOnce(doc) && IsVote(v)
    ensures Count(LateVoters(hit, doc, vote, email, v), Text(email)) ==
      if OldVote(hit, email) == Some(v) then 0
      else if v == vote && OldVote(hit, email) != Some(vote) then 1
      else if OldVote(doc, email) == Some(v) then 1
      else 0
  {
    LateCount(hit, doc, vote, email, v);
    CountOfVoter(doc, email, v);
  }

  /** The ballot only withdraws, or the voter has since voted for nothing, for the same, or for what it withdraws. */
  predicate StillOne(was: Option<string>, now: Option<string>, vote: string) {
    was == Some(vote) || now == None || now == Some(vote) || now == was
  }

  lemma LateCastOfVoter(hit: Document, doc: Document, vote: string, email: string, after: Document)
    requires AtMostOnce(doc) && IsVote(vote) && LateLists(hit, doc, vote, email, after)
    ensures Cast(after, Text(email)) <= 1 <==> StillOne(OldVote(hit, email), OldVote(doc, email), vote)
  {
    LateListsFacts(hit, doc, vote, email, after);
    assert IsVote(BENIGN) && IsVote(OBSCURE) && IsVote(MALICIOUS);
    assert OldVote(doc, email).Some? ==> IsVote(OldVote(doc, email).value);
    LateCountOfVoter(hit, doc, vote, email, BENIGN);
    LateCountOfVoter(hit, doc, vote, email, OBSCURE);
    LateCountOfVoter(hit, doc, vote, email, MALICIOUS);
  }

  /** A ballot computed from an older document keeps one vote per voter if and only if it only withdraws, or the voter
      has since voted for nothing, for the same, or for what the ballot withdraws. */
  lemma LateBallotKeepsOne(hit: Document, doc: Document, vote: string, email: string)
    requires AtMostOnce(doc) && IsVote(vote)
    ensures ApplyAll(Ballot(hit, vote, email), doc).Some?
    ensures AtMostOnce(ApplyAll(Ballot(hit, vote, email), doc).value) <==>
      StillOne(OldVote(hit, email), OldVote(doc, email), vote)
  {
    LateBallot(hit, doc, vote, email);
    var after := ApplyAll(Ballot(hit, vote, email), doc).value;
    LateListsFacts(hit, doc, vote, email, after);
    LateCasts(hit, doc, vote, email, after);
    LateCastOfVoter(hit, doc, vote, email, after);
    OthersDecide(doc, after, Text(email));
  }

  lemma OthersDecide(doc: Document, after: Document, me: Value)
    requires AtMostOnce(doc) && HasVotes(after) && forall x :: x != me ==> Cast(after, x) == Cast(doc, x)
    ensures AtMostOnce(after) <==> Cast(after, me) <= 1
  {
    if Cast(after, me) <= 1 {
      forall x ensures Cast(after, x) <= 1 {
        assert Cast(doc, x) <= 1;
      }
    }
  }
}
