/**
 An object text that gives a key more than once: the key keeps its first place and its last value, as
 in the JSON library's ordered objects that common/json-partial.cpp fills.
 */
module JsonDuplicates {
  import opened Wrappers
  import opened JsonValue
  import opened JsonScanner
  import opened JsonRender
  import opened JsonRoundTrip

  // ---------------------------------------------------------------- what is kept

  ghost predicate FirstOf(members: seq<Member>, i: nat, key: string) {
    i < |members| && members[i].key == key && forall h :: 0 <= h < i ==> members[h].key != key
  }

  ghost predicate LastOf(members: seq<Member>, j: nat) {
    j < |members| && forall h :: j < h < |members| ==> members[h].key != members[j].key
  }

  /** The last member with its key. */
  ghost predicate IsLast(members: seq<Member>, m: Member) {
    exists j: nat :: LastOf(members, j) && members[j] == m
  }

  ghost predicate SameKeys(members: seq<Member>, kept: seq<Member>) {
    forall k :: HasKey(kept, k) <==> HasKey(members, k)
  }

  ghost predicate AllLast(members: seq<Member>, kept: seq<Member>) {
    forall i :: 0 <= i < |kept| ==> IsLast(members, kept[i])
  }

  /** In the order in which their keys first come. */
  ghost predicate InFirstOrder(members: seq<Member>, kept: seq<Member>) {
    forall a, b, i: nat, j: nat ::
      0 <= a < b < |kept| && FirstOf(members, i, kept[a].key) && FirstOf(members, j, kept[b].key) ==> i < j
  }

  /** `kept` has every key once, with its last value, in the order in which the keys first come. */
  ghost predicate KeepsLast(members: seq<Member>, kept: seq<Member>) {
    DistinctKeys(kept) && SameKeys(members, kept) && AllLast(members, kept) && InFirstOrder(members, kept)
  }

  /** All members stored in turn. */
  function PutAll(members: seq<Member>): seq<Member> {
    if members == [] then []
    else
      var n := |members| - 1;
      Put(PutAll(members[..n]), members[n].key, members[n].value)
  }

  lemma {:induction false} PutReplaces(members: seq<Member>, key: string, v: Json) returns (p: nat)
    requires HasKey(members, key)
    ensures FirstOf(members, p, key) && Put(members, key, v) == members[p := Member(key, v)]
  {
    if members[0].key == key {
      p := 0;
    } else {
      var i :| 0 <= i < |members| && members[i].key == key;
      assert members[1..][i - 1].key == key;
      p := PutReplaces(members[1..], key, v);
      p := p + 1;
    }
  }

  lemma {:induction false} PutAllKeepsLast(members: seq<Member>)
    ensures KeepsLast(members, PutAll(members))
  {
    hide KeepsLast, Put;
    if members == [] {
      NothingKept();
    } else {
      var n := |members| - 1;
      PutAllKeepsLast(members[..n]);
      OneMoreKept(members[..n], members[n], PutAll(members[..n]));
      assert members[..n] + [members[n]] == members;
    }
  }

  lemma NothingKept()
    ensures KeepsLast([], [])
  {
  }

  lemma SnocKeys(init: seq<Member>, m: Member)
    ensures forall k :: HasKey(init + [m], k) <==> HasKey(init, k) || k == m.key
    ensures forall i: nat, k :: FirstOf(init + [m], i, k) <==>
                                FirstOf(init, i, k) || (i == |init| && k == m.key && !HasKey(init, k))
    ensures forall j: nat :: LastOf(init + [m], j) <==> (LastOf(init, j) && init[j].key != m.key) || j == |init|
  {
    var all := init + [m];
    assert forall i :: 0 <= i < |init| ==> all[i] == init[i];
    assert all[|init|] == m;
  }

  lemma LastAfterOneMore(init: seq<Member>, m: Member, kept: seq<Member>, more: seq<Member>)
    requires AllLast(init, kept)
    requires forall i :: 0 <= i < |more| ==> more[i] == m || (i < |kept| && more[i] == kept[i] && kept[i].key != m.key)
    ensures AllLast(init + [m], more)
  {
    forall i | 0 <= i < |more|
      ensures IsLast(init + [m], more[i])
    {
      if more[i] == m {
        assert LastOf(init + [m], |init|) && (init + [m])[|init|] == m;
      } else {
        OtherStaysLast(init, m, kept[i]);
      }
    }
  }

  lemma OtherStaysLast(init: seq<Member>, m: Member, k: Member)
    requires k.key != m.key && IsLast(init, k)
    ensures IsLast(init + [m], k)
  {
    var j: nat :| LastOf(init, j) && init[j] == k;
    assert LastOf(init + [m], j) && (init + [m])[j] == init[j];
  }

  lemma Replaced(init: seq<Member>, m: Member, kept: seq<Member>, p: nat)
    requires KeepsLast(init, kept) && p < |kept| && kept[p].key == m.key
    ensures KeepsLast(init + [m], kept[p := m])
  {
    var more := kept[p := m];
    LastAfterOneMore(init, m, kept, more);
    SnocKeys(init, m);
    assert forall i :: 0 <= i < |kept| ==> more[i].key == kept[i].key;
    EqualKeys(kept, more);
    hide LastOf, AllLast;
    assert HasKey(kept, m.key);
    forall i | 0 <= i < |kept|
      ensures HasKey(init, kept[i].key)
    {
      assert HasKey(kept, kept[i].key);
    }
  }

  lemma EqualKeys(a: seq<Member>, b: seq<Member>)
    requires |a| == |b| && forall i :: 0 <= i < |a| ==> a[i].key == b[i].key
    ensures forall k :: HasKey(a, k) <==> HasKey(b, k)
    ensures DistinctKeys(a) <==> DistinctKeys(b)
  {
  }

  lemma Added(init: seq<Member>, m: Member, kept: seq<Member>)
    requires KeepsLast(init, kept) && !HasKey(kept, m.key)
    ensures KeepsLast(init + [m], kept + [m])
  {
    LastAfterOneMore(init, m, kept, kept + [m]);
    SnocKeys(init, m);
    SnocKeys(kept, m);
    hide LastOf, AllLast;
    assert DistinctKeys(kept + [m]);
    AddedInOrder(init, m, kept);
  }

  lemma AddedInOrder(init: seq<Member>, m: Member, kept: seq<Member>)
    requires InFirstOrder(init, kept) && SameKeys(init, kept) && !HasKey(kept, m.key)
    ensures InFirstOrder(init + [m], kept + [m])
  {
    SnocKeys(init, m);
    var all, more := init + [m], kept + [m];
    forall a, b, i: nat, j: nat | 0 <= a < b < |more| && FirstOf(all, i, more[a].key) && FirstOf(all, j, more[b].key)
      ensures i < j
    {
      assert HasKey(kept, kept[a].key) && HasKey(init, kept[a].key) && FirstOf(init, i, kept[a].key);
      if b == |kept| {
        assert more[b] == m && !HasKey(init, m.key) && j == |init|;
      } else {
        assert HasKey(kept, kept[b].key) && HasKey(init, kept[b].key) && FirstOf(init, j, kept[b].key);
      }
    }
  }

  lemma OneMoreKept(init: seq<Member>, m: Member, kept: seq<Member>)
    requires KeepsLast(init, kept)
    ensures KeepsLast(init + [m], Put(kept, m.key, m.value))
  {
    hide KeepsLast;
    if HasKey(kept, m.key) {
      var p := PutReplaces(kept, m.key, m.value);
      Replaced(init, m, kept, p);
    } else {
      Added(init, m, kept);
    }
  }

  // ---------------------------------------------------------------- what is parsed

  /** From the place of a key to behind the member's value, whether the key is new or not. */
  lemma MemberRuns(kept: seq<Member>, m: Member, below: Frames, start: State)
    requires WellFormed(start) && start.frames == InObject(kept, below) && (start.mode.FirstKey? || start.mode.WantKey?)
    requires Storable(m.value)
    ensures Run(start, DumpMember(m)).Some?
    ensures Settles(Run(start, DumpMember(m)).value, State(InObject(Put(kept, m.key, m.value), below), AfterValue))
  {
    hide Run, Step, Quote, Escape, CompactRun, Storable, Dump, Put;
    var f := InMember(kept, m.key, below);
    var open, full := State(start.frames, InString(true, "")), State(start.frames, InString(true, m.key));
    var colon, want := State(f, WantColon), State(f, WantValue);
    KeySteps(kept, m.key, below, start);
    StringLeads(start.frames, true, m.key);
    DumpReaches(m.value, want);
    var v := Dump(m.value);
    assert DumpMember(m) == ['\"'] + (Escape(m.key) + (['\"'] + ([':'] + v))) by {
      MemberText(m);
    }
    RunConcat(start, ['\"'], Escape(m.key) + (['\"'] + ([':'] + v)));
    RunConcat(open, Escape(m.key), ['\"'] + ([':'] + v));
    RunConcat(full, ['\"'], [':'] + v);
    RunConcat(colon, [':'], v);
    RunOne(start, '\"');
    RunOne(full, '\"');
    RunOne(colon, ':');
    DeliveredMember(kept, m, below);
  }

  lemma DeliveredMember(kept: seq<Member>, m: Member, below: Frames)
    requires Ready(below) && Stacked(below)
    ensures Deliver(InMember(kept, m.key, below), m.value)
            == State(InObject(Put(kept, m.key, m.value), below), AfterValue)
  {
  }

  lemma MemberText(m: Member)
    ensures DumpMember(m) == ['\"'] + (Escape(m.key) + (['\"'] + ([':'] + Dump(m.value))))
  {
  }

  lemma KeySteps(kept: seq<Member>, key: string, below: Frames, start: State)
    requires WellFormed(start) && start.frames == InObject(kept, below) && (start.mode.FirstKey? || start.mode.WantKey?)
    ensures var f := InMember(kept, key, below);
            && Step(start, '\"') == Some(State(start.frames, InString(true, "")))
            && Step(State(start.frames, InString(true, key)), '\"') == Some(State(f, WantColon))
            && Step(State(f, WantColon), ':') == Some(State(f, WantValue))
            && WellFormed(State(f, WantValue))
  {
  }

  lemma {:induction false} MembersRun(members: seq<Member>, below: Frames)
    requires members != [] && (forall i :: 0 <= i < |members| ==> Storable(members[i].value))
    requires Ready(below) && Stacked(below)
    ensures var open := State(InObject([], below), FirstKey);
            && Run(open, DumpMembers(members)).Some?
            && Settles(Run(open, DumpMembers(members)).value, State(InObject(PutAll(members), below), AfterValue))
  {
    hide Run, Step, Storable, DumpMember, Put;
    var n := |members| - 1;
    var init, open, last := members[..n], State(InObject([], below), FirstKey), members[n];
    if n == 0 {
      assert init == [];
      MemberRuns([], last, below, open);
      assert DumpMembers(members) == "" + DumpMember(last) == DumpMember(last);
    } else {
      MembersRun(init, below);
      var kept := PutAll(init);
      var after, want := State(InObject(kept, below), AfterValue), State(InObject(kept, below), WantKey);
      CommaFollows(Run(open, DumpMembers(init)).value, after, kept, below);
      var d := DumpMembers(init);
      RunConcat(open, d + [','], DumpMember(last));
      RunConcat(open, d, [',']);
      RunOne(Run(open, d).value, ',');
      MemberRuns(kept, last, below, want);
      assert DumpMembers(members) == d + [','] + DumpMember(last);
    }
  }

  lemma CommaFollows(a: State, after: State, kept: seq<Member>, below: Frames)
    requires Ready(below) && Stacked(below) && kept != [] && after == State(InObject(kept, below), AfterValue)
    requires WellFormed(a) && Settles(a, after)
    ensures Step(a, ',') == Some(State(InObject(kept, below), WantKey))
    ensures Step(a, '}') == Some(Deliver(below, Object(kept)))
  {
    SettledStep(a, after, ',');
    SettledStep(a, after, '}');
  }

  /** The text of an object that may give a key more than once parses to the object that keeps the last values. */
  lemma DuplicateKeys(members: seq<Member>) returns (kept: seq<Member>)
    requires forall i :: 0 <= i < |members| ==> Storable(members[i].value)
    ensures KeepsLast(members, kept) && Parse(Dump(Object(members))) == Some(Object(kept))
  {
    hide Run, Step, Storable, KeepsLast, Put;
    kept := PutAll(members);
    PutAllKeepsLast(members);
    if members == [] {
      ParseNoMembers();
    } else {
      MembersRun(members, Bottom);
      var open, d := State(InObject([], Bottom), FirstKey), DumpMembers(members);
      CommaFollows(Run(open, d).value, State(InObject(kept, Bottom), AfterValue), kept, Bottom);
      assert Dump(Object(members)) == ['{'] + (d + ['}']);
      RunConcat(START, ['{'], d + ['}']);
      RunConcat(open, d, ['}']);
      RunOne(Run(open, d).value, '}');
      RunOne(START, '{');
      OpensObject();
    }
  }

  lemma ParseNoMembers()
    ensures Parse(Dump(Object([]))) == Some(Object([]))
  {
    assert Storable(Object([]));
    ParseDump(Object([]));
  }

  lemma OpensObject()
    ensures Step(START, '{') == Some(State(InObject([], Bottom), FirstKey))
  {
  }
}
