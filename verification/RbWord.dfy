/** The word of a tree node that holds both the parent's address and the colour: `rbtree.h`. Node
    addresses are multiples of four, so the two lowest bits are free. */
module RbWord {

  const RB_RED := 0
  const RB_BLACK := 1

  type Address = a: int | 0 <= a && a % 4 == 0 witness 0

  class ParentColor {
    var word: nat

    /** The second lowest bit is never set. */
    ghost predicate Valid()
      reads this
    {
      word % 4 < 2
    }

    /** `rb_parent` and `rb_color` */
    function Parent(): Address
      reads this
    {
      word - word % 4
    }

    function Color(): (c: int)
      reads this
      ensures c == RB_RED || c == RB_BLACK
    {
      word % 2
    }

    /** `rb_link_node`: a new node is red. */
    constructor (parent: Address)
      ensures Valid() && Parent() == parent && Color() == RB_RED
    {
      word := parent;
    }

    /** `rb_set_parent`; the or is a sum, for the parts share no bit. */
    method SetParent(p: Address)
      requires Valid()
      modifies this
      ensures Valid() && Parent() == p && Color() == old(Color())
    {
      Parts(word, 0);
      Parts(word % 4, p / 4);
      word := word % 4 + p;
    }

    /** `rb_set_color`, `rb_set_red` and `rb_set_black` */
    method SetColor(c: int)
      requires Valid() && (c == RB_RED || c == RB_BLACK)
      modifies this
      ensures Valid() && Parent() == old(Parent()) && Color() == c
    {
      SameBit(word);
      Parts(c, word / 4);
      word := word - word % 2 + c;
    }
  }

  lemma Parts(r: nat, q: nat)
    ensures (r + 4 * q) % 4 == r % 4 && (r + 4 * q) % 2 == r % 2 && r % 4 % 2 == r % 2
  {
    FourTimes(r, q);
    TwoTimes(r, 2 * q);
    TwoTimes(r % 4, 2 * (r / 4));
    assert r == r % 4 + 2 * (2 * (r / 4));
  }

  lemma SameBit(w: nat)
    requires w % 4 < 2
    ensures w % 2 == w % 4 && w - w % 2 == 4 * (w / 4)
  {
    Parts(w, 0);
  }

  lemma FourTimes(r: nat, q: nat)
    ensures (r + 4 * q) % 4 == r % 4
  {}

  lemma TwoTimes(r: nat, q: nat)
    ensures (r + 2 * q) % 2 == r % 2
  {}
}
