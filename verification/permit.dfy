/**
 * Permission bits and the static role catalog of app/models.py.
 * A role grants a request when every requested bit is present in its mask.
 */
module Permit {

  /** An 8-bit capability mask. */
  type Mask = bv8

  const Follow: Mask := 0x01
  const Comment: Mask := 0x02
  const WriteArticle: Mask := 0x04
  const ManageComment: Mask := 0x08
  const Admin: Mask := 0x80

  const UserMask: Mask := Follow | Comment | WriteArticle
  const AssistantMask: Mask := Follow | Comment | WriteArticle | ManageComment
  const AdministratorMask: Mask := 0xff

  /** The catalog of roles: name -> (mask, default flag). */
  const Catalog: map<string, (Mask, bool)> :=
    map[
      "User" := (UserMask, true),
      "Assistant" := (AssistantMask, false),
      "Administrator" := (AdministratorMask, false)
    ]

  /** The single-bit masks, bit 0 first. */
  const SingleBits: seq<Mask> := [0x01, 0x02, 0x04, 0x08, 0x10, 0x20, 0x40, 0x80]

  predicate HasBit(m: Mask, i: nat)
    requires i < 8
  {
    m & SingleBits[i] != 0
  }

  /** Reference reading of a mask: the set of bit positions it holds. */
  function Bits(m: Mask): (s: set<nat>)
    ensures forall i :: i in s ==> i < 8
  {
    set i: nat | i < 8 && HasBit(m, i)
  }

  /** The mask test of the source: `granted & requested == requested`. */
  predicate Grants(granted: Mask, requested: Mask)
  {
    granted & requested == requested
  }

  /** A mask grants a request exactly when it holds every requested bit. */
  lemma {:induction false} GrantsIffSubset(granted: Mask, requested: Mask)
    ensures Grants(granted, requested) <==> Bits(requested) <= Bits(granted)
  {
    if Bits(requested) <= Bits(granted) {
      forall i: nat | i < 8 && HasBit(requested, i)
        ensures HasBit(granted, i)
      {
        assert i in Bits(requested);
      }
      assert HasBit(requested, 0) ==> HasBit(granted, 0);
      assert HasBit(requested, 1) ==> HasBit(granted, 1);
      assert HasBit(requested, 2) ==> HasBit(granted, 2);
      assert HasBit(requested, 3) ==> HasBit(granted, 3);
      assert HasBit(requested, 4) ==> HasBit(granted, 4);
      assert HasBit(requested, 5) ==> HasBit(granted, 5);
      assert HasBit(requested, 6) ==> HasBit(granted, 6);
      assert HasBit(requested, 7) ==> HasBit(granted, 7);
    }
  }

  /** A mask built with `|` holds exactly the bits of its parts. */
  lemma {:induction false} BitsOfUnion(a: Mask, b: Mask)
    ensures Bits(a | b) == Bits(a) + Bits(b)
  {
    forall i: nat | i < 8
      ensures HasBit(a | b, i) <==> HasBit(a, i) || HasBit(b, i)
    {
    }
  }

  /** Every mask grants the empty request. */
  lemma EmptyRequestGranted(granted: Mask)
    ensures Grants(granted, 0)
  {
  }

  /** The Administrator mask holds all eight bits and so grants every request. */
  lemma AdministratorGrantsAll(requested: Mask)
    ensures Bits(AdministratorMask) == {0, 1, 2, 3, 4, 5, 6, 7}
    ensures Grants(AdministratorMask, requested)
  {
  }

  /** The User mask is follow, comment and write_article; it lacks manage_comment and admin. */
  lemma UserMaskLimits()
    ensures Grants(UserMask, Follow) && Grants(UserMask, Comment) && Grants(UserMask, WriteArticle)
    ensures !Grants(UserMask, ManageComment) && !Grants(UserMask, Admin)
  {
  }

  /** A mask whose bits include another's grants everything the other grants. */
  lemma {:induction false} GrantsMonotone(smaller: Mask, larger: Mask, requested: Mask)
    requires Bits(smaller) <= Bits(larger)
    ensures Grants(smaller, requested) ==> Grants(larger, requested)
  {
    GrantsIffSubset(smaller, requested);
    GrantsIffSubset(larger, requested);
  }

  /** Catalog monotonicity: the Assistant role grants whatever the User role grants. */
  lemma {:induction false} AssistantCoversUser(requested: Mask)
    ensures Bits(UserMask) < Bits(AssistantMask)
    ensures Grants(UserMask, requested) ==> Grants(AssistantMask, requested)
  {
    BitsOfUnion(UserMask, ManageComment);
    assert 3 in Bits(ManageComment) && 3 !in Bits(UserMask);
    GrantsMonotone(UserMask, AssistantMask, requested);
  }

  /** Exactly one catalog entry, User, is the default role. */
  lemma CatalogSingleDefault()
    ensures forall name :: name in Catalog ==> (Catalog[name].1 <==> name == "User")
    ensures "User" in Catalog
  {
  }
}
