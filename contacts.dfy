/** What `GetContactList` does with the address book (wechat/wechat.go,
    lines 197-234): it sorts each member into a bucket by name prefix and
    verify flag, indexes all members by name, and adds the people of the
    chat set missing from the conversation list. */
module Contacts {
  import opened Types

  /** The bucket a member lands in: group chats, public accounts, personal
      contacts, or none of them. */
  datatype Kind = Group | Public | Personal | Unlisted

  /** `VerifyFlag&8 != 0`: bit 3 of the two's-complement flag. */
  predicate HasVerifyBit(flag: int)
  {
    (flag / 8) % 2 == 1
  }

  /** The classification of the member loop. Slicing `UserName[:2]` panics
      on shorter names, hence the precondition. */
  function KindOf(m: Member): Kind
    requires |m.userName| >= 2
  {
    if m.userName[..2] == "@@" then Group
    else if HasVerifyBit(m.verifyFlag) then Public
    else if m.userName[..1] == "@" then Personal
    else Unlisted
  }

  /** Every name of the list is long enough to classify. */
  predicate Classifiable(ms: seq<Member>)
  {
    forall i :: 0 <= i < |ms| ==> |ms[i].userName| >= 2
  }

  /** The bit test agrees with bit 3 of the value modulo 16, for negative
      flags too. */
  lemma VerifyBitIsBit3(flag: int)
    ensures HasVerifyBit(flag) <==> flag % 16 >= 8
  {
    var q := flag / 16;
    var r := flag % 16;
    assert flag == 16 * q + r;
    if r >= 8 {
      assert flag == 8 * (2 * q + 1) + (r - 8);
      assert flag / 8 == 2 * q + 1;
    } else {
      assert flag == 8 * (2 * q) + r;
      assert flag / 8 == 2 * q;
    }
  }

  /** The kinds in terms of the first two characters and the flag: group
      chats start with `@@` whatever their flag, public accounts carry the
      bit, personal contacts start with a single `@`. */
  lemma KindMeaning(m: Member)
    requires |m.userName| >= 2
    ensures KindOf(m) == Group <==> m.userName[0] == '@' && m.userName[1] == '@'
    ensures KindOf(m) == Public <==> !(m.userName[0] == '@' && m.userName[1] == '@') && HasVerifyBit(m.verifyFlag)
    ensures KindOf(m) == Personal <==> m.userName[0] == '@' && m.userName[1] != '@' && !HasVerifyBit(m.verifyFlag)
    ensures KindOf(m) == Unlisted <==> m.userName[0] != '@' && !HasVerifyBit(m.verifyFlag)
  {
    assert m.userName[..2] == "@@" <==> m.userName[0] == '@' && m.userName[1] == '@' by {
      if m.userName[0] == '@' && m.userName[1] == '@' {
        assert m.userName[..2] == [m.userName[0], m.userName[1]];
      }
    }
    assert m.userName[..1] == "@" <==> m.userName[0] == '@' by {
      if m.userName[0] == '@' {
        assert m.userName[..1] == [m.userName[0]];
      }
    }
  }

  /** The members of one kind, in list order. */
  function OfKind(ms: seq<Member>, k: Kind): seq<Member>
    requires Classifiable(ms)
  {
    if ms == [] then []
    else
      var last := ms[|ms| - 1];
      OfKind(ms[..|ms| - 1], k) + (if KindOf(last) == k then [last] else [])
  }

  /** One more member of the list adds at most that member to a bucket. */
  lemma OfKindStep(ms: seq<Member>, i: nat, k: Kind)
    requires Classifiable(ms) && i < |ms|
    ensures Classifiable(ms[..i]) && Classifiable(ms[..i + 1])
    ensures OfKind(ms[..i + 1], k) == OfKind(ms[..i], k) + (if KindOf(ms[i]) == k then [ms[i]] else [])
  {
    assert ms[..i + 1][..i] == ms[..i];
  }

  /** Each bucket holds exactly the members of its kind: it is a
      sub-multiset of the list, everything in it has the kind, and every
      member of the kind appears in it as often as in the list. */
  lemma {:induction false} OfKindExact(ms: seq<Member>, k: Kind, m: Member)
    requires Classifiable(ms)
    ensures multiset(OfKind(ms, k))[m] == (if |m.userName| >= 2 && KindOf(m) == k then multiset(ms)[m] else 0)
  {
    if ms != [] {
      var init := ms[..|ms| - 1];
      assert ms == init + [ms[|ms| - 1]];
      OfKindExact(init, k, m);
    }
  }

  /** The four buckets split the list: together they are the list, as a
      multiset. */
  lemma {:induction false} Partition(ms: seq<Member>)
    requires Classifiable(ms)
    ensures multiset(OfKind(ms, Group)) + multiset(OfKind(ms, Public))
          + multiset(OfKind(ms, Personal)) + multiset(OfKind(ms, Unlisted)) == multiset(ms)
    ensures |OfKind(ms, Group)| + |OfKind(ms, Public)| + |OfKind(ms, Personal)| + |OfKind(ms, Unlisted)| == |ms|
  {
    if ms != [] {
      var init := ms[..|ms| - 1];
      assert ms == init + [ms[|ms| - 1]];
      Partition(init);
    }
  }

  /** `MemberMap` after inserting each member of the list under its name. */
  function Indexed(mm: map<string, Member>, ms: seq<Member>): map<string, Member>
  {
    if ms == [] then mm
    else
      var last := ms[|ms| - 1];
      Indexed(mm, ms[..|ms| - 1])[last.userName := last]
  }

  /** One more member of the list is one more insertion. */
  lemma IndexedStep(mm: map<string, Member>, ms: seq<Member>, i: nat)
    requires i < |ms|
    ensures Indexed(mm, ms[..i + 1]) == Indexed(mm, ms[..i])[ms[i].userName := ms[i]]
  {
    assert ms[..i + 1][..i] == ms[..i];
  }

  /** Every entry of the map is stored under its member's name. */
  predicate KeyedByName(mm: map<string, Member>)
  {
    forall name :: name in mm ==> mm[name].userName == name
  }

  /** A name is in the index iff it was there before or some member has it;
      its entry is the last member with that name, or the old entry. */
  lemma {:induction false} IndexedLookup(mm: map<string, Member>, ms: seq<Member>, name: string)
    ensures name in Indexed(mm, ms) <==> name in mm || exists i :: 0 <= i < |ms| && ms[i].userName == name
    ensures forall i :: (0 <= i < |ms| && ms[i].userName == name
              && (forall j :: i < j < |ms| ==> ms[j].userName != name)) ==> Indexed(mm, ms)[name] == ms[i]
    ensures (forall i :: 0 <= i < |ms| ==> ms[i].userName != name) && name in mm ==> Indexed(mm, ms)[name] == mm[name]
  {
    if ms != [] {
      var init := ms[..|ms| - 1];
      IndexedLookup(mm, init, name);
      if name == ms[|ms| - 1].userName {
        assert ms[|ms| - 1].userName == name;
      } else {
        assert forall i :: 0 <= i < |init| ==> init[i] == ms[i];
      }
    }
  }

  /** Indexing keeps the map keyed by name. */
  lemma {:induction false} IndexedKeyed(mm: map<string, Member>, ms: seq<Member>)
    requires KeyedByName(mm)
    ensures KeyedByName(Indexed(mm, ms))
  {
    if ms != [] {
      IndexedKeyed(mm, ms[..|ms| - 1]);
    }
  }

  /** Some user of the list has this name. */
  predicate Listed(list: seq<User>, name: string)
  {
    exists i :: 0 <= i < |list| && list[i].userName == name
  }

  /** The `User` the reconciliation builds from a member: name, nick name
      and signature; the verify flag is left at zero. */
  function Hydrate(m: Member): User
  {
    User(m.userName, m.nickName, m.signature, 0)
  }

  /** `InitContactList` after the chat-set loop: each name of the chat set
      that no user of the (growing) list has, and that the index knows, is
      appended as a hydrated member. */
  function Reconciled(init: seq<User>, chatSet: seq<string>, mm: map<string, Member>): seq<User>
  {
    if chatSet == [] then init
    else
      var r := Reconciled(init, chatSet[..|chatSet| - 1], mm);
      var name := chatSet[|chatSet| - 1];
      if Listed(r, name) || name !in mm then r else r + [Hydrate(mm[name])]
  }

  /** The list only grows, by at most one user per chat-set name. */
  lemma {:induction false} ReconciledPrefix(init: seq<User>, chatSet: seq<string>, mm: map<string, Member>)
    ensures |init| <= |Reconciled(init, chatSet, mm)| <= |init| + |chatSet|
    ensures Reconciled(init, chatSet, mm)[..|init|] == init
  {
    if chatSet != [] {
      ReconciledPrefix(init, chatSet[..|chatSet| - 1], mm);
    }
  }

  /** Every chat-set name the index knows ends up listed. */
  lemma {:induction false} ReconciledCovers(init: seq<User>, chatSet: seq<string>, mm: map<string, Member>)
    requires KeyedByName(mm)
    ensures forall k :: 0 <= k < |chatSet| && chatSet[k] in mm ==> Listed(Reconciled(init, chatSet, mm), chatSet[k])
  {
    if chatSet != [] {
      var prev := chatSet[..|chatSet| - 1];
      var r := Reconciled(init, prev, mm);
      ReconciledCovers(init, prev, mm);
      var name := chatSet[|chatSet| - 1];
      if !Listed(r, name) && name in mm {
        var r' := r + [Hydrate(mm[name])];
        assert r'[|r|].userName == name;
        forall k | 0 <= k < |prev| && prev[k] in mm
          ensures Listed(r', prev[k])
        {
          var i :| 0 <= i < |r| && r[i].userName == prev[k];
          assert r'[i] == r[i];
        }
      }
      forall k | 0 <= k < |chatSet| && chatSet[k] in mm
        ensures Listed(Reconciled(init, chatSet, mm), chatSet[k])
      {
        if k < |prev| {
          assert chatSet[k] == prev[k];
        }
      }
    }
  }

  /** Every appended user is the hydrated index entry of a chat-set name
      that no user before it has: nothing is appended twice, and nothing
      already listed is appended. */
  lemma {:induction false} ReconciledAppends(init: seq<User>, chatSet: seq<string>, mm: map<string, Member>)
    requires KeyedByName(mm)
    ensures forall j :: |init| <= j < |Reconciled(init, chatSet, mm)| ==>
              var u := Reconciled(init, chatSet, mm)[j];
              u.userName in chatSet && u.userName in mm && u == Hydrate(mm[u.userName])
              && !Listed(Reconciled(init, chatSet, mm)[..j], u.userName)
  {
    ReconciledPrefix(init, chatSet, mm);
    if chatSet != [] {
      var prev := chatSet[..|chatSet| - 1];
      var r := Reconciled(init, prev, mm);
      ReconciledAppends(init, prev, mm);
      ReconciledPrefix(init, prev, mm);
      var name := chatSet[|chatSet| - 1];
      var res := Reconciled(init, chatSet, mm);
      forall j | |init| <= j < |res|
        ensures res[j].userName in chatSet && res[j].userName in mm && res[j] == Hydrate(mm[res[j].userName])
        ensures !Listed(res[..j], res[j].userName)
      {
        if j < |r| {
          assert res[j] == r[j];
          assert res[..j] == r[..j];
          assert r[j].userName in prev;
        } else {
          assert res == r + [Hydrate(mm[name])];
          assert res[..j] == r;
        }
      }
    }
  }
}
