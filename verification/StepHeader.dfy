// What a file's header says: the last record of each kind that says it, and the texts it lists.
module StepHeader {
  import opened StepLexer
  import opened StepGrammar
  import opened StepFile

  function Texts(xs: seq<Bytes>): (ts: seq<Tree>)
    ensures |ts| == |xs|
  {
    seq(|xs|, i requires 0 <= i < |xs| => TStr(xs[i]))
  }

  lemma {:induction false} MembersJoin(a: seq<Tree>, b: seq<Tree>)
    ensures FlattenMembers(a + b) == FlattenMembers(a) + FlattenMembers(b)
    decreases |a|
  {
    if a == [] {
      assert a + b == b;
    } else {
      assert (a + b)[1..] == a[1..] + b;
      MembersJoin(a[1..], b);
    }
    hide FlattenMember;
  }

  lemma {:induction false} OneMember(t: Tree)
    ensures FlattenMembers([t]) == FlattenMember(t)
  {
    assert [t][1..] == [];
  }

  /** A list's texts come out in order. */
  lemma {:induction false} TextsFlatten(xs: seq<Bytes>)
    ensures Flatten(TList(Texts(xs))) == xs
  {
    if xs != [] {
      var rest := Texts(xs[1..]);
      assert Texts(xs) == [TStr(xs[0])] + rest;
      TextsFlatten(xs[1..]);
      MembersJoin([TStr(xs[0])], rest);
      OneMember(TStr(xs[0]));
      hide FlattenMembers;
      assert xs == [xs[0]] + xs[1..];
    }
  }

  /** Lists laid end to end give their texts end to end, an inner list gives them in its place, and
      whatever is neither list nor text gives an empty one when listed and none by itself. */
  lemma {:induction false} FlattenExact(a: seq<Tree>, b: seq<Tree>, t: Tree)
    ensures Flatten(TList(a + b)) == Flatten(TList(a)) + Flatten(TList(b))
    ensures Flatten(TList([TList(a)])) == Flatten(TList(a))
    ensures !t.TStr? && !t.TList? ==> Flatten(TList([t])) == [[]] && Flatten(t) == []
    ensures t.TStr? ==> Flatten(t) == [t.text]
  {
    MembersJoin(a, b);
    OneMember(TList(a));
    OneMember(t);
    hide FlattenMembers;
  }

  /** The last record that `says` so. */
  ghost predicate LastOf(rs: seq<HeaderRecord>, says: HeaderRecord -> bool, k: nat) {
    k < |rs| && says(rs[k]) && forall j :: k < j < |rs| ==> !says(rs[j])
  }

  ghost predicate Never(rs: seq<HeaderRecord>, says: HeaderRecord -> bool) { forall j :: 0 <= j < |rs| ==> !says(rs[j]) }

  predicate Describes(r: HeaderRecord) { r.keyword == "FILE_DESCRIPTION" && |r.args| > 0 }
  predicate Levels(r: HeaderRecord) { r.keyword == "FILE_DESCRIPTION" && |r.args| > 1 && r.args[1].TStr? }
  predicate Names(r: HeaderRecord) { r.keyword == "FILE_NAME" }
  predicate Schemas(r: HeaderRecord) { r.keyword == "FILE_SCHEMA" && |r.args| > 0 }

  /** A record's texts, one an argument: an argument that is no text gives an empty one. */
  predicate OneEach(args: seq<Tree>, xs: seq<Bytes>) {
    |xs| == |args| && forall i :: 0 <= i < |args| ==> xs[i] == if args[i].TStr? then args[i].text else []
  }

  /** Each part of the header is what the last record that gives it says, and empty when none does. */
  lemma {:induction false} HeadExact(rs: seq<HeaderRecord>, k: nat)
    ensures LastOf(rs, Describes, k) ==> HeadOf(rs).description == Flatten(rs[k].args[0])
    ensures LastOf(rs, Levels, k) ==> HeadOf(rs).implementationLevel == rs[k].args[1].text
    ensures LastOf(rs, Names, k) ==> OneEach(rs[k].args, HeadOf(rs).name)
    ensures LastOf(rs, Schemas, k) ==> HeadOf(rs).schema == Flatten(rs[k].args[0])
    ensures Never(rs, Describes) ==> HeadOf(rs).description == []
    ensures Never(rs, Levels) ==> HeadOf(rs).implementationLevel == []
    ensures Never(rs, Names) ==> HeadOf(rs).name == []
    ensures Never(rs, Schemas) ==> HeadOf(rs).schema == []
  {
    hide Flatten, SetHead, Describes, Levels, Names, Schemas, OneEach;
    if rs != [] {
      var n := |rs| - 1;
      HeadExact(rs[..n], k);
      LastBefore(rs, Describes, k);
      LastBefore(rs, Levels, k);
      LastBefore(rs, Names, k);
      LastBefore(rs, Schemas, k);
      SetExact(HeadOf(rs[..n]), rs[n]);
      hide LastOf, Never;
    }
  }

  /** One record sets the parts it gives and leaves the others. */
  lemma {:induction false} SetExact(h: Head, r: HeaderRecord)
    ensures var h' := SetHead(h, r);
      && (if Describes(r) then h'.description == Flatten(r.args[0]) else h'.description == h.description)
      && (if Levels(r) then h'.implementationLevel == r.args[1].text else h'.implementationLevel == h.implementationLevel)
      && (if Names(r) then OneEach(r.args, h'.name) else h'.name == h.name)
      && (if Schemas(r) then h'.schema == Flatten(r.args[0]) else h'.schema == h.schema)
  {
    hide Flatten;
  }

  lemma {:induction false} LastBefore(rs: seq<HeaderRecord>, says: HeaderRecord -> bool, k: nat)
    requires rs != []
    ensures var n := |rs| - 1;
      && (LastOf(rs, says, k) ==> if k == n then says(rs[n]) else !says(rs[n]) && k < n && LastOf(rs[..n], says, k))
      && (Never(rs, says) ==> Never(rs[..n], says) && !says(rs[n]))
  {
  }
}
