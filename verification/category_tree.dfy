/** The per-category discount table (`CategoryBST` in DSA.cpp): an
    unbalanced binary search tree keyed by category name, with the
    discount stored beside each key. Pricing never reads these discounts.

    Keys are ordered as C++ `std::string` orders them, lexicographically by
    character; Dafny's own `<` on sequences means "proper prefix", so the
    order is defined here as `Less`. */
module CategoryTree {

  datatype Tree = Leaf | Node(left: Tree, category: string, discount: real, right: Tree)

  /** Lexicographic order on strings: the first differing character
      decides, and a proper prefix comes first. */
  predicate Less(a: string, b: string) {
    if |a| == 0 then |b| > 0
    else if |b| == 0 then false
    else if a[0] != b[0] then a[0] < b[0]
    else Less(a[1..], b[1..])
  }

  lemma {:induction false} LessIrreflexive(a: string)
    ensures !Less(a, a)
  {
    if |a| > 0 {
      LessIrreflexive(a[1..]);
    }
  }

  lemma {:induction false} LessTransitive(a: string, b: string, c: string)
    requires Less(a, b) && Less(b, c)
    ensures Less(a, c)
  {
    if |a| > 0 && |b| > 0 && |c| > 0 && a[0] == b[0] && b[0] == c[0] {
      LessTransitive(a[1..], b[1..], c[1..]);
    }
  }

  /** Any two different strings are ordered one way or the other. */
  lemma {:induction false} LessConnected(a: string, b: string)
    requires a != b
    ensures Less(a, b) || Less(b, a)
  {
    if |a| > 0 && |b| > 0 && a[0] == b[0] {
      assert a == [a[0]] + a[1..] && b == [b[0]] + b[1..];
      LessConnected(a[1..], b[1..]);
    }
  }

  /** The (category, discount) pairs stored in `t`, duplicates included. */
  ghost function Entries(t: Tree): multiset<(string, real)> {
    match t
    case Leaf => multiset{}
    case Node(l, c, d, r) => Entries(l) + multiset{(c, d)} + Entries(r)
  }

  ghost function Keys(t: Tree): set<string> {
    match t
    case Leaf => {}
    case Node(l, c, _, r) => Keys(l) + {c} + Keys(r)
  }

  /** The search-tree property `insert` keeps: keys before a node's key to
      its left, all other keys (equal ones included) to its right. */
  ghost predicate Ordered(t: Tree) {
    match t
    case Leaf => true
    case Node(l, c, _, r) =>
      && Ordered(l) && Ordered(r)
      && (forall k :: k in Keys(l) ==> Less(k, c))
      && (forall k :: k in Keys(r) ==> !Less(k, c))
  }

  /** `insert`: a new leaf for `cat` on the path `search` would take, going
      right on a tie, so a repeated key is stored again. */
  function Insert(t: Tree, cat: string, disc: real): (r: Tree)
    ensures Entries(r) == Entries(t) + multiset{(cat, disc)}
    ensures Keys(r) == Keys(t) + {cat}
    ensures Ordered(t) ==> Ordered(r)
  {
    match t
    case Leaf => Node(Leaf, cat, disc, Leaf)
    case Node(l, c, d, r) =>
      if Less(cat, c) then Node(Insert(l, cat, disc), c, d, r)
      else Node(l, c, d, Insert(r, cat, disc))
  }

  /** `search`: the discount of the first node on the search path whose key
      is `cat`, and 0 when the path ends without one. */
  function Search(t: Tree, cat: string): (r: real)
    ensures cat !in Keys(t) ==> r == 0.0
    ensures Ordered(t) && cat in Keys(t) ==> (cat, r) in Entries(t)
  {
    match t
    case Leaf => 0.0
    case Node(l, c, d, r) =>
      if c == cat then d
      else if Less(cat, c) then Search(l, cat)
      else Search(r, cat)
  }

  /** The search path for `cat` meets a node whose key is `cat`. */
  ghost predicate OnPath(t: Tree, cat: string) {
    match t
    case Leaf => false
    case Node(l, c, _, r) =>
      c == cat || (if Less(cat, c) then OnPath(l, cat) else OnPath(r, cat))
  }

  /** In an ordered tree, the search for a key finds it exactly when the
      key is stored. */
  lemma {:induction false} OnPathIffStored(t: Tree, cat: string)
    requires Ordered(t)
    ensures OnPath(t, cat) <==> cat in Keys(t)
  {
    match t
    case Leaf =>
    case Node(l, c, _, r) =>
      OnPathIffStored(l, cat);
      OnPathIffStored(r, cat);
  }

  /** Searching for the key just inserted returns the new discount unless
      the search path already met that key, which then keeps shadowing the
      new node (ties go right, below it). */
  lemma {:induction false} SearchAfterInsertSame(t: Tree, cat: string, disc: real)
    ensures Search(Insert(t, cat, disc), cat) == (if OnPath(t, cat) then Search(t, cat) else disc)
  {
    match t
    case Leaf =>
    case Node(l, c, _, r) =>
      if c != cat {
        if Less(cat, c) {
          SearchAfterInsertSame(l, cat, disc);
        } else {
          SearchAfterInsertSame(r, cat, disc);
        }
      }
  }

  /** Inserting one key never changes what a search for another key
      returns. */
  lemma {:induction false} SearchAfterInsertOther(t: Tree, cat: string, disc: real, other: string)
    requires other != cat
    ensures Search(Insert(t, cat, disc), other) == Search(t, other)
  {
    match t
    case Leaf =>
    case Node(l, c, _, r) =>
      if Less(cat, c) {
        SearchAfterInsertOther(l, cat, disc, other);
      } else {
        SearchAfterInsertOther(r, cat, disc, other);
      }
  }

  /** In an ordered tree, a key that was not stored is found with its
      discount right after it is inserted. */
  lemma SearchAfterInsertFresh(t: Tree, cat: string, disc: real)
    requires Ordered(t) && cat !in Keys(t)
    ensures Search(Insert(t, cat, disc), cat) == disc
  {
    OnPathIffStored(t, cat);
    SearchAfterInsertSame(t, cat, disc);
  }
}
