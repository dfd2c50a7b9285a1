/** Optimistic concurrency on one document: versioned reads, versioned saves, and every other client in between. */
module VersionedSave {
  import opened Wrappers
  import opened Strings
  import opened VersionToken

  type Name = string

  /** One stored version of the document in one physical index. */
  datatype Version = Version(seqNo: nat, term: nat, data: string)

  /** An accepted write: into `index`, over `replaced`, or by `create`. A deletion is recorded too. */
  datatype Event =
    | Stored(index: Name, create: bool, replaced: Option<Version>, stored: Version)
    | Deleted(index: Name)

  datatype Outcome = Saved | Conflict | Invalid

  datatype Operation = IndexDocument | CreateDocument

  ghost predicate DeletedBetween(log: seq<Event>, a: int, b: int, index: Name) {
    exists c :: 0 <= a < c < b <= |log| && log[c] == Deleted(index)
  }

  /** A creation in an index that was written before comes after a deletion. */
  ghost predicate CreatesApart(log: seq<Event>) {
    forall a, b :: 0 <= a < b < |log| && Again(log[a], log[b]) ==> DeletedBetween(log, a, b, log[b].index)
  }

  /** A write, and a creation in the same index. */
  predicate Again(e: Event, f: Event) {
    e.Stored? && f.Stored? && f.create && e.index == f.index
  }

  /** What was written and is no longer there was deleted since. */
  ghost predicate GoneByDeletion(log: seq<Event>, there: set<Name>) {
    forall a :: 0 <= a < |log| && log[a].Stored? && log[a].index !in there ==>
      DeletedBetween(log, a, |log|, log[a].index)
  }

  class Datastore {
    /** The collection's name, which Elasticsearch resolves to the write index, and whether the collection is
        managed. */
    const name: Name
    const managed: bool
    var writeIndex: Name
    var docs: map<Name, Version>
    var next: map<Name, nat>
    var term: nat
    /** Every version ever stored, by index and sequence number. A search may still show an old one. */
    var past: map<(Name, nat), Version>
    ghost var log: seq<Event>
    /** The document and the writes as the other clients left them before the operation's last request. */
    ghost var found: map<Name, Version>
    ghost var before: seq<Event>
    /** How many times the document was asked for, and how many searches did not show it although it was there. */
    ghost var attempts: nat
    ghost var hidden: nat

    function NextSeqNo(index: Name): nat
      reads this
    {
      if index in next then next[index] else 0
    }

    /** Sequence numbers are used once per index, and between two creations in an index lies a deletion. */
    ghost predicate Valid()
      reads this
    {
      && (forall i, q :: (i, q) in past ==> q < NextSeqNo(i) && past[(i, q)].seqNo == q && Clean(i) && i != name)
      && (forall i :: i in docs ==> (i, docs[i].seqNo) in past && past[(i, docs[i].seqNo)] == docs[i])
      && Clean(writeIndex) && writeIndex != name
      && CreatesApart(log) && GoneByDeletion(log, docs.Keys)
    }

    /** Nothing recorded is forgotten or altered. */
    twostate predicate Grew()
      reads this
    {
      && (forall k :: k in old(past) ==> k in past && past[k] == old(past[k]))
      && old(log) <= log
    }

    constructor (name: Name, managed: bool, writeIndex: Name)
      requires Clean(writeIndex) && writeIndex != name
      ensures Valid() && docs == map[] && log == []
      ensures this.name == name && this.managed == managed && this.writeIndex == writeIndex
    {
      this.name, this.managed, this.writeIndex := name, managed, writeIndex;
      docs, next, term, past, log := map[], map[], 0, map[], [];
      found, before, attempts, hidden := map[], [], 0, 0;
    }

    /** Where a write to `index` goes: the collection's name is an alias. */
    function Resolve(index: Name): Name
      reads this
    {
      if index == name then writeIndex else index
    }

    function Current(index: Name): Option<Version>
      reads this
    {
      if index in docs then Some(docs[index]) else None
    }

    method Store(index: Name, create: bool, data: string)
      requires Valid() && Clean(index) && index != name && (create ==> index !in docs)
      modifies this`docs, this`next, this`past, this`log
      ensures Valid() && Grew()
      ensures log == old(log) + [Stored(index, create, old(Current(index)), Version(old(NextSeqNo(index)), term, data))]
      ensures docs == old(docs)[index := Version(old(NextSeqNo(index)), term, data)]
    {
      var version := Version(NextSeqNo(index), term, data);
      ghost var entry := Stored(index, create, Current(index), version);
      StoredMore(log, docs.Keys, entry);
      past := past[(index, version.seqNo) := version];
      next := next[index := version.seqNo + 1];
      docs := docs[index := version];
      assert docs.Keys == old(docs.Keys) + {index};
      log := log + [entry];
    }

    /** `index` of the client: unconditional, only to create, or only over one exact version; accepted exactly when
        what is there allows it, and then it replaces that. */
    method IndexDoc(index: Name, operation: Operation, seqNo: Option<string>, primaryTerm: Option<string>, data: string)
      returns (r: Outcome)
      requires Valid() && (index == name || Clean(index))
      modifies this`docs, this`next, this`past, this`log
      ensures Valid() && Grew() && r != Invalid
      ensures r == Saved <==> Allows(old(Current(Resolve(index))), operation, seqNo, primaryTerm)
      ensures r == Conflict ==> log == old(log) && docs == old(docs)
      ensures r == Saved ==>
        var stored := Version(old(NextSeqNo(Resolve(index))), term, data);
        && log == old(log) + [Stored(Resolve(index), operation == CreateDocument, old(Current(Resolve(index))), stored)]
        && docs == old(docs)[Resolve(index) := stored]
    {
      var target := Resolve(index);
      if operation == CreateDocument && target in docs {
        return Conflict;
      }
      if seqNo.Some? && primaryTerm.Some? {
        if target !in docs || Decimal(docs[target].seqNo) != seqNo.value
          || Decimal(docs[target].term) != primaryTerm.value
        {
          return Conflict;
        }
      }
      Store(target, operation == CreateDocument, data);
      return Saved;
    }

    // -------------------------------------------------------------- creations

    /** In every run, two creations in one physical index have a deletion of the document in between. */
    lemma TwoCreatesApart(a: nat, b: nat)
      requires Valid() && a < b < |log| && log[a].Stored? && log[a].create && log[b].Stored? && log[b].create
      ensures log[a].index == log[b].index ==> DeletedBetween(log, a, b, log[a].index)
    {
      assert Again(log[a], log[b]) <==> log[a].index == log[b].index;
    }

    /** The collection's name stands for another index from now on. */
    method RollOver(later: Name)
      requires Valid() && Clean(later) && later != name
      modifies this`writeIndex
      ensures Valid() && writeIndex == later
    {
      writeIndex := later;
    }

    /** What two saves with the create token send: a first creation, then one when the collection's name stands for
        `later`, which is the same index or, after a rollover, one without the document. Both are accepted if and
        only if it is another index. */
    method TwoCreates(first: string, second: string, later: Name) returns (r: Outcome, s: Outcome)
      requires Valid() && managed && writeIndex !in docs
      requires Clean(later) && later != name && (later == writeIndex || later !in docs)
      modifies this`docs, this`next, this`past, this`log, this`writeIndex
      ensures Valid() && Grew() && r == Saved
      ensures s == Saved <==> later != old(writeIndex)
      ensures forall c :: |old(log)| <= c < |log| ==> log[c].Stored? && log[c].create
      ensures later in docs && docs[later].data == if s == Saved then second else first
    {
      r := IndexDoc(name, CreateDocument, None, None, first);
      RollOver(later);
      s := IndexDoc(name, CreateDocument, None, None, second);
    }

    method Delete(index: Name)
      requires Valid()
      modifies this`docs, this`next, this`log
      ensures Valid() && Grew()
    {
      if index in docs {
        DeletedMore(log, docs.Keys, index);
        docs := docs - {index};
        assert docs.Keys == old(docs.Keys) - {index};
        next := next[index := NextSeqNo(index) + 1];
        log := log + [Deleted(index)];
      }
    }

    /** Any number of other clients write, delete, and make the index roll over or fail over. */
    method Others()
      requires Valid()
      modifies this`docs, this`next, this`past, this`log, this`term, this`writeIndex, this`found, this`before
      ensures Valid() && Grew() && (!managed ==> writeIndex == old(writeIndex))
      ensures found == docs && before == log
    {
      var turns: int := *;
      while turns > 0
        invariant Valid() && Grew() && (!managed ==> writeIndex == old(writeIndex))
      {
        var index: Name, operation: Operation, seqNo: Option<string>, primaryTerm: Option<string>, data: string :=
          *, *, *, *, *;
        var kind: int := *;
        IsCleanMeans(index);
        if kind == 0 {
          if index == name || IsClean(index) {
            var _ := IndexDoc(index, operation, seqNo, primaryTerm, data);
          }
        } else if kind == 1 {
          Delete(index);
        } else if kind == 2 {
          if managed && IsClean(index) && index != name { writeIndex := index; }
        } else {
          term := term + 1;
        }
        turns := turns - 1;
      }
      found, before := docs, log;
    }

    // -------------------------------------------------------------- the collection's operations

    /** `version` was handed out together with `read`. */
    ghost predicate Minted(version: string, read: Option<string>)
      reads this
    {
      MintedIn(managed, writeIndex, past, version, read)
    }

    /** `_get` with a version, with a bounded number of retries. A managed collection searches, and may see an old
        version or miss the document; another one asks for the document itself. It is asked for once more for each
        retry before it counts as missing. */
    method Get(retries: nat) returns (read: Option<string>, version: string)
      requires Valid()
      modifies this`docs, this`next, this`past, this`log, this`term, this`writeIndex, this`found, this`before,
        this`attempts, this`hidden
      ensures Valid() && Grew() && Minted(version, read) && docs == found && log == before
      ensures version == CREATE <==> read == None
      ensures old(attempts) < attempts <= old(attempts) + retries + 1
      ensures read == None ==> attempts == old(attempts) + retries + 1
      ensures !managed ==> read == (if writeIndex in docs then Some(docs[writeIndex].data) else None)
      ensures managed && read == None && docs != map[] ==> hidden > old(hidden)
    {
      var left := retries;
      while true
        invariant Valid() && Grew() && 0 <= left <= retries
        invariant attempts == old(attempts) + retries - left && hidden >= old(hidden)
        decreases left
      {
        read, version := Ask();
        if read.Some? || left == 0 {
          return;
        }
        left := left - 1;
      }
    }

    /** One request for the document, after the others' turn. */
    method Ask() returns (read: Option<string>, version: string)
      requires Valid()
      modifies this`docs, this`next, this`past, this`log, this`term, this`writeIndex, this`found, this`before,
        this`attempts, this`hidden
      ensures Valid() && Grew() && Minted(version, read) && docs == found && log == before
      ensures version == CREATE <==> read == None
      ensures attempts == old(attempts) + 1 && hidden >= old(hidden)
      ensures !managed ==> read == (if writeIndex in docs then Some(docs[writeIndex].data) else None)
      ensures managed && read == None && docs != map[] ==> hidden > old(hidden)
    {
      Others();
      attempts := attempts + 1;
      if managed {
        var shown: bool := *;
        if shown && past.Keys != {} {
          var k :| k in past;
          TokenIsNoCreate(k.0, k.1, past[k].term);
          return Some(past[k].data), TokenOf(k.0, past[k]);
        }
        if docs != map[] {
          hidden := hidden + 1;
        }
      } else if writeIndex in docs {
        var doc := docs[writeIndex];
        assert IsTokenOf(managed, writeIndex, past, (writeIndex, doc.seqNo), ShortToken(doc.seqNo, doc.term));
        TokenIsNoCreate(writeIndex, doc.seqNo, doc.term);
        return Some(doc.data), TokenOf(writeIndex, doc);
      }
      return None, CREATE;
    }

    /** The token that `_get` hands out with a version it finds in `index`. */
    function TokenOf(index: Name, v: Version): string {
      if managed then Token(index, v.seqNo, v.term) else ShortToken(v.seqNo, v.term)
    }

    /** The last write put `data` in place of exactly the version that `version` was handed out for. */
    ghost predicate Replaced(version: string, read: Option<string>, data: string)
      reads this
    {
      && log != [] && log[|log| - 1].Stored? && log[|log| - 1].stored.data == data
      && var e := log[|log| - 1];
        if version == CREATE then e.create && e.replaced == None && read == None
        else
          && e.replaced.Some? && read == Some(e.replaced.value.data)
          && version == TokenOf(e.index, e.replaced.value)
    }

    lemma MintedCreate(read: Option<string>)
      requires Valid() && Minted(CREATE, read)
      ensures read == None
    {
      forall k | k in past ensures !IsTokenOf(managed, writeIndex, past, k, CREATE) {
        TokenIsNoCreate(k.0, k.1, past[k].term);
      }
    }

    lemma MintedDecodes(version: string, read: Option<string>) returns (k: (Name, nat))
      requires Valid() && Minted(version, read) && version != CREATE
      ensures k in past && IsTokenOf(managed, writeIndex, past, k, version) && read == Some(past[k].data) && k.0 != name
      ensures WriteTarget(name, version)
           == Some(Target(if managed then k.0 else name, Decimal(k.1), Decimal(past[k].term)))
    {
      k :| k in past && IsTokenOf(managed, writeIndex, past, k, version) && read == Some(past[k].data);
      TokenDecodes(name, k.0, k.1, past[k].term);
      ShortTokenDecodes(name, k.1, past[k].term);
    }

    /** A write over the version a token stands for. */
    method Conditional(version: string, target: Target, data: string, ghost read: Option<string>) returns (r: Outcome)
      requires Valid() && version != CREATE && WriteTarget(name, version) == Some(target)
      requires docs == found && log == before
      modifies this`docs, this`next, this`past, this`log
      ensures Valid() && Grew() && r != Invalid
      ensures if r == Saved then Wrote(Resolve(target.index), false, data) else docs == found && log == before
      ensures old(Minted(version, read)) ==>
        (r == Saved <==> StillThere(version)) && (r == Saved ==> Replaced(version, read, data))
    {
      TargetIsClean(name, version);
      if Minted(version, read) {
        MintedAllows(version, target, read);
      }
      r := PutOver(target, data);
    }

    /** The write of a version token, read apart. */
    method PutOver(target: Target, data: string) returns (r: Outcome)
      requires Valid() && (target.index == name || Clean(target.index)) && docs == found && log == before
      modifies this`docs, this`next, this`past, this`log
      ensures Valid() && Grew() && r != Invalid
      ensures r == Saved <==>
        old(Allows(Current(Resolve(target.index)), IndexDocument, Some(target.seqNo), Some(target.term)))
      ensures if r == Saved then Wrote(Resolve(target.index), false, data) else docs == found && log == before
    {
      r := IndexDoc(target.index, IndexDocument, Some(target.seqNo), Some(target.term), data);
    }

    /** What the datastore compares decides whether the version of the token is still there, and what it then holds. */
    lemma MintedAllows(version: string, target: Target, read: Option<string>)
      requires Valid() && docs == found && Minted(version, read)
      requires version != CREATE && WriteTarget(name, version) == Some(target)
      ensures Allows(Current(Resolve(target.index)), IndexDocument, Some(target.seqNo), Some(target.term)) <==>
        StillThere(version)
      ensures StillThere(version) ==>
        && read == Some(found[Resolve(target.index)].data)
        && version == TokenOf(Resolve(target.index), found[Resolve(target.index)])
    {
      var k := MintedDecodes(version, read);
      if k.0 in found {
        SameNumber(found[k.0].seqNo, k.1);
        SameNumber(found[k.0].term, past[k].term);
      }
      if StillThere(version) {
        StandingDecodes(version, target);
      }
    }

    /** A token of what was found decodes to where that is. */
    lemma StandingDecodes(version: string, target: Target)
      requires version != CREATE && StillThere(version) && WriteTarget(name, version) == Some(target)
      requires forall i :: i in found ==> Clean(i) && i != name
      ensures Resolve(target.index) in found
      ensures target.seqNo == Decimal(found[Resolve(target.index)].seqNo)
      ensures target.term == Decimal(found[Resolve(target.index)].term)
    {
      if managed {
        var i :| i in found && version == TokenOf(i, found[i]);
        TokenDecodes(name, i, found[i].seqNo, found[i].term);
      } else {
        ShortTokenDecodes(name, found[writeIndex].seqNo, found[writeIndex].term);
      }
    }

    lemma NoEmptyToken(read: Option<string>)
      ensures !Minted("", read)
    {
      forall k | k in past ensures !IsTokenOf(managed, writeIndex, past, k, "") {
        assert Token(k.0, k.1, past[k].term) != "" && ShortToken(k.1, past[k].term) != "";
      }
    }

    /** The last write put `data` into `index`, in place of what was found there, and that is the document now. */
    ghost predicate Wrote(index: Name, create: bool, data: string)
      reads this
    {
      && index in docs && docs[index].data == data && docs == found[index := docs[index]]
      && log == before + [Stored(index, create, if index in found then Some(found[index]) else None, docs[index])]
    }

    /** The version that a token stands for is still the document; for the token to create, there is none. */
    ghost predicate StillThere(version: string)
      reads this
    {
      if version == CREATE then writeIndex !in found
      else if managed then exists i :: i in found && version == TokenOf(i, found[i])
      else writeIndex in found && version == TokenOf(writeIndex, found[writeIndex])
    }

    /** `save`. A token makes the write replace exactly the version read, whatever happened in between, and the write
        is refused exactly when that is not the document any more; in a managed collection that holds for a save
        without a token too, over a version read at its start. In another collection such a save always goes
        through. */
    method Save(data: string, version: Option<string>, ghost read: Option<string>)
      returns (r: Outcome, ghost base: Option<string>, ghost used: Option<string>)
      requires Valid()
      modifies this`docs, this`next, this`past, this`log, this`term, this`writeIndex, this`found, this`before,
        this`attempts, this`hidden
      ensures Valid() && Grew()
      ensures version.Some? ==> used == version && base == read
      ensures version.None? ==>
        if managed then used.Some? && Minted(used.value, base) && attempts == old(attempts) + 1 else used == None
      ensures r == Invalid <==> used.Some? && Malformed(used.value)
      ensures if r == Saved then exists index, create :: Wrote(index, create, data) else docs == found && log == before
      ensures used == None ==> r == Saved && Wrote(writeIndex, false, data)
      ensures used.Some? && (version.Some? ==> old(Minted(version.value, read))) ==>
        && Minted(used.value, base)
        && (r == Saved <==> StillThere(used.value)) && (r == Saved ==> Replaced(used.value, base, data))
    {
      base, used := read, version;
      var token := version;
      if version.None? && managed {
        var v: string;
        base, v := Get(0);
        token, used := Some(v), Some(v);
      }
      r := SaveWith(data, token, base);
    }

    method SaveWith(data: string, token: Option<string>, ghost read: Option<string>) returns (r: Outcome)
      requires Valid()
      modifies this`docs, this`next, this`past, this`log, this`term, this`writeIndex, this`found, this`before
      ensures Valid() && Grew()
      ensures r == Invalid <==> token.Some? && Malformed(token.value)
      ensures if r == Saved then exists index, create :: Wrote(index, create, data) else docs == found && log == before
      ensures token == None || token == Some("") ==> r == Saved && Wrote(writeIndex, false, data)
      ensures token.Some? && old(Minted(token.value, read)) ==>
        && Minted(token.value, read)
        && (r == Saved <==> StillThere(token.value)) && (r == Saved ==> Replaced(token.value, read, data))
    {
      ghost var kept, index := past, writeIndex;
      Others();
      if token.Some? && old(Minted(token.value, read)) {
        TokensKept(managed, index, kept, writeIndex, past, token.value, read);
      }
      r := Send(data, token, read);
    }

    /** The request of `save`. */
    method Send(data: string, token: Option<string>, ghost read: Option<string>) returns (r: Outcome)
      requires Valid() && docs == found && log == before
      modifies this`docs, this`next, this`past, this`log
      ensures Valid() && Grew()
      ensures r == Invalid <==> token.Some? && Malformed(token.value)
      ensures if r == Saved then exists index, create :: Wrote(index, create, data) else docs == found && log == before
      ensures token == None || token == Some("") ==> r == Saved && Wrote(writeIndex, false, data)
      ensures token.Some? && old(Minted(token.value, read)) ==>
        && Minted(token.value, read)
        && (r == Saved <==> StillThere(token.value)) && (r == Saved ==> Replaced(token.value, read, data))
    {
      if token.Some? {
        MintedIsWellFormed(token.value, read);
      }
      if token == Some(CREATE) {
        r := Create(data, read);
      } else if token.Some? && token.value != "" {
        var target := WriteTarget(name, token.value);
        if target.None? {
          return Invalid;
        }
        r := Conditional(token.value, target.value, data, read);
      } else {
        r := IndexDoc(name, IndexDocument, None, None, data);
        assert r == Saved ==> Wrote(writeIndex, false, data);
      }
    }

    /** A write only to create. */
    method Create(data: string, ghost read: Option<string>) returns (r: Outcome)
      requires Valid() && docs == found && log == before
      modifies this`docs, this`next, this`past, this`log
      ensures Valid() && Grew() && r != Invalid
      ensures if r == Saved then Wrote(writeIndex, true, data) else docs == found && log == before
      ensures r == Saved <==> StillThere(CREATE)
      ensures old(Minted(CREATE, read)) && r == Saved ==> Replaced(CREATE, read, data)
    {
      if Minted(CREATE, read) {
        MintedCreate(read);
      }
      r := IndexDoc(name, CreateDocument, None, None, data);
    }

    lemma MintedIsWellFormed(version: string, read: Option<string>)
      requires Valid()
      ensures Minted(version, read) ==> version != "" && !Malformed(version)
    {
      NoEmptyToken(read);
      if Minted(version, read) && version != CREATE {
        var k := MintedDecodes(version, read);
      }
    }
  }

  /** `version` stands for the stored version `k`. */
  ghost predicate IsTokenOf(managed: bool, writeIndex: Name, past: map<(Name, nat), Version>, k: (Name, nat),
                            version: string)
  {
    && k in past
    && if managed then version == Token(k.0, k.1, past[k].term)
       else k.0 == writeIndex && version == ShortToken(k.1, past[k].term)
  }

  ghost predicate MintedIn(managed: bool, writeIndex: Name, past: map<(Name, nat), Version>, version: string,
                           read: Option<string>)
  {
    || (version == CREATE && read == None)
    || exists k :: k in past && IsTokenOf(managed, writeIndex, past, k, version) && read == Some(past[k].data)
  }

  /** Tokens stay good for what they were handed out for. */
  lemma TokensKept(managed: bool, a: Name, before: map<(Name, nat), Version>, b: Name, after: map<(Name, nat), Version>,
                   version: string, read: Option<string>)
    requires MintedIn(managed, a, before, version, read)
    requires (forall k :: k in before ==> k in after && after[k] == before[k]) && (!managed ==> a == b)
    ensures MintedIn(managed, b, after, version, read)
  {
    if !(version == CREATE && read == None) {
      var k :| k in before && IsTokenOf(managed, a, before, k, version) && read == Some(before[k].data);
      assert IsTokenOf(managed, b, after, k, version);
    }
  }

  lemma SameNumber(a: nat, b: nat)
    ensures Decimal(a) == Decimal(b) <==> a == b
  {
    DecimalFacts(a);
    DecimalFacts(b);
  }

  /** Whether a write to an index with this version of the document is accepted. */
  predicate Allows(there: Option<Version>, operation: Operation, seqNo: Option<string>, primaryTerm: Option<string>) {
    && (operation == CreateDocument ==> there.None?)
    && (seqNo.Some? && primaryTerm.Some? ==>
          there.Some? && Decimal(there.value.seqNo) == seqNo.value && Decimal(there.value.term) == primaryTerm.value)
  }

  lemma StillDeleted(log: seq<Event>, more: seq<Event>, a: int, b: int, index: Name)
    requires DeletedBetween(log, a, b, index) && log <= more
    ensures DeletedBetween(more, a, b, index) && DeletedBetween(more, a, |more|, index)
  {
    var c :| 0 <= a < c < b <= |log| && log[c] == Deleted(index);
    assert more[c] == Deleted(index);
  }

  lemma OldCreatesApart(log: seq<Event>, e: Event, a: int, b: int)
    requires CreatesApart(log) && 0 <= a < b < |log| && Again(log[a], log[b])
    ensures DeletedBetween(log + [e], a, b, log[b].index)
  {
    StillDeleted(log, log + [e], a, b, log[b].index);
  }

  lemma StoredMore(log: seq<Event>, there: set<Name>, e: Event)
    requires CreatesApart(log) && GoneByDeletion(log, there) && e.Stored? && (e.create ==> e.index !in there)
    ensures CreatesApart(log + [e]) && GoneByDeletion(log + [e], there + {e.index})
  {
    var more := log + [e];
    forall a, b | 0 <= a < b < |more| && Again(more[a], more[b]) ensures DeletedBetween(more, a, b, more[b].index) {
      if b < |log| {
        OldCreatesApart(log, e, a, b);
      } else {
        StillDeleted(log, more, a, |log|, e.index);
      }
    }
    forall a | 0 <= a < |more| && more[a].Stored? && more[a].index !in there + {e.index}
      ensures DeletedBetween(more, a, |more|, more[a].index)
    {
      StillDeleted(log, more, a, |log|, log[a].index);
    }
  }

  lemma DeletedMore(log: seq<Event>, there: set<Name>, index: Name)
    requires CreatesApart(log) && GoneByDeletion(log, there)
    ensures CreatesApart(log + [Deleted(index)]) && GoneByDeletion(log + [Deleted(index)], there - {index})
  {
    var more := log + [Deleted(index)];
    forall a, b | 0 <= a < b < |more| && Again(more[a], more[b]) ensures DeletedBetween(more, a, b, more[b].index) {
      OldCreatesApart(log, Deleted(index), a, b);
    }
    forall a | 0 <= a < |more| && more[a].Stored? && more[a].index !in there - {index}
      ensures DeletedBetween(more, a, |more|, more[a].index)
    {
      if more[a].index == index {
        assert more[|log|] == Deleted(index);
      } else {
        StillDeleted(log, more, a, |log|, log[a].index);
      }
    }
  }
}
