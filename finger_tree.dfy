/** The persistent 2-3 finger tree of `com.github.hilcode.collection`.

    `FingerTree<T>` nests: the deeper tree of a `FingerTree<T>` is a
    `FingerTree<Node<T>>`. Here every level shares one element type, `Elem`,
    which is either a value (a `Leaf`) or a `Node` of two or three elements of
    the level below; `Well(t, n)` says that tree `t` holds elements of depth
    `n` and its deeper trees those of depth `n + 1`, ..., which is what the
    nested Java types guarantee. */
module FingerTrees {
  import opened Wrappers

  const PREPEND_TO_FOUR := "Unable to prepend to an Affix.Four."
  const APPEND_TO_FOUR := "Unable to append to an Affix.Four."
  const NO_SUCH_ELEMENT := "NoSuchElementException"

  /** A value, or a `Node.Branch2` / `Node.Branch3` of elements one level down. */
  datatype Elem<T> = Leaf(value: T) | Branch2(x: Elem<T>, y: Elem<T>) | Branch3(x: Elem<T>, y: Elem<T>, z: Elem<T>)

  /** The values below an element, left to right. */
  function Items<T>(e: Elem<T>): seq<T>
  {
    match e
    case Leaf(v) => [v]
    case Branch2(x, y) => Items(x) + Items(y)
    case Branch3(x, y, z) => Items(x) + Items(y) + Items(z)
  }

  /** The values below a sequence of elements, left to right. */
  function ItemsOfAll<T>(es: seq<Elem<T>>): seq<T>
  {
    if es == [] then [] else Items(es[0]) + ItemsOfAll(es[1..])
  }

  lemma {:induction false} ItemsOfAllConcat<T>(a: seq<Elem<T>>, b: seq<Elem<T>>)
    ensures ItemsOfAll(a + b) == ItemsOfAll(a) + ItemsOfAll(b)
  {
    if a != [] {
      assert (a + b)[1..] == a[1..] + b;
      ItemsOfAllConcat(a[1..], b);
    } else {
      assert a + b == b;
    }
  }

  lemma ItemsOfAllOne<T>(e: Elem<T>)
    ensures ItemsOfAll([e]) == Items(e)
  {
    assert [e][1..] == [];
  }

  lemma ItemsOfTwo<T>(a: Elem<T>, b: Elem<T>)
    ensures ItemsOfAll([a, b]) == Items(a) + Items(b)
  {
    assert [a, b][1..] == [b];
    ItemsOfAllOne(b);
  }

  lemma ItemsOfThree<T>(a: Elem<T>, b: Elem<T>, c: Elem<T>)
    ensures ItemsOfAll([a, b, c]) == Items(a) + Items(b) + Items(c)
  {
    assert [a, b, c][1..] == [b, c];
    ItemsOfTwo(b, c);
  }

  /** Both ways of splitting four elements, `a | b c d` and `a b c | d`. */
  lemma ItemsOfFour<T>(a: Elem<T>, b: Elem<T>, c: Elem<T>, d: Elem<T>)
    ensures ItemsOfAll([a, b, c, d]) == Items(a) + Items(Branch3(b, c, d))
    ensures ItemsOfAll([a, b, c, d]) == Items(Branch3(a, b, c)) + Items(d)
  {
    assert [a, b, c, d][1..] == [b, c, d];
    ItemsOfThree(b, c, d);
  }

  /** The element has depth exactly `n`: a value at 0, a node of depth-`n - 1`
      elements above that. */
  ghost predicate Level<T>(e: Elem<T>, n: nat)
  {
    match e
    case Leaf(_) => n == 0
    case Branch2(x, y) => n > 0 && Level(x, n - 1) && Level(y, n - 1)
    case Branch3(x, y, z) => n > 0 && Level(x, n - 1) && Level(y, n - 1) && Level(z, n - 1)
  }

  ghost predicate AllLevel<T>(es: seq<Elem<T>>, n: nat)
  {
    forall k | 0 <= k < |es| :: Level(es[k], n)
  }

  /** The elements of a node, in the order its iterator yields them. */
  function Children<T>(e: Elem<T>): (es: seq<Elem<T>>)
    requires !e.Leaf?
    ensures 2 <= |es| <= 3
    ensures ItemsOfAll(es) == Items(e)
  {
    ItemsOfAllOne(e.y);
    if e.Branch2? then
      assert [e.x, e.y][1..] == [e.y];
      [e.x, e.y]
    else
      ItemsOfAllOne(e.z);
      assert [e.x, e.y, e.z][1..] == [e.y, e.z];
      assert [e.y, e.z][1..] == [e.z];
      [e.x, e.y, e.z]
  }

  lemma ChildrenLevel<T>(e: Elem<T>, n: nat)
    requires Level(e, n + 1)
    ensures !e.Leaf? && AllLevel(Children(e), n)
  {
  }

  // ---------------------------------------------------------------- Affix

  datatype Affix<T> =
    | One(a: Elem<T>)
    | Two(a: Elem<T>, b: Elem<T>)
    | Three(a: Elem<T>, b: Elem<T>, c: Elem<T>)
    | Four(a: Elem<T>, b: Elem<T>, c: Elem<T>, d: Elem<T>)

  /** The elements of an affix in field order `a, b, c, d`. */
  function Slots<T>(affix: Affix<T>): (es: seq<Elem<T>>)
    ensures 1 <= |es| <= 4
  {
    match affix
    case One(a) => [a]
    case Two(a, b) => [a, b]
    case Three(a, b, c) => [a, b, c]
    case Four(a, b, c, d) => [a, b, c, d]
  }

  function AffixItems<T>(affix: Affix<T>): seq<T>
  {
    ItemsOfAll(Slots(affix))
  }

  /** `Functions.prepend(x, affix)`: one element more at the front; a `Four`
      has no room. */
  function AffixPrepend<T>(x: Elem<T>, affix: Affix<T>): (r: Result<Affix<T>>)
    ensures r.Ok? <==> !affix.Four?
    ensures r.Ok? ==> Slots(r.value) == [x] + Slots(affix)
    ensures r.Err? ==> r.message == PREPEND_TO_FOUR
  {
    match affix
    case One(a) => Ok(Two(x, a))
    case Two(a, b) => Ok(Three(x, a, b))
    case Three(a, b, c) => Ok(Four(x, a, b, c))
    case Four(_, _, _, _) => Err(PREPEND_TO_FOUR)
  }

  /** `Functions.append(affix, x)`: one element more at the back; a `Four`
      has no room. */
  function AffixAppend<T>(affix: Affix<T>, x: Elem<T>): (r: Result<Affix<T>>)
    ensures r.Ok? <==> !affix.Four?
    ensures r.Ok? ==> Slots(r.value) == Slots(affix) + [x]
    ensures r.Err? ==> r.message == APPEND_TO_FOUR
  {
    match affix
    case One(a) => Ok(Two(a, x))
    case Two(a, b) => Ok(Three(a, b, x))
    case Three(a, b, c) => Ok(Four(a, b, c, x))
    case Four(_, _, _, _) => Err(APPEND_TO_FOUR)
  }

  /** `Functions.fromNode`: an affix holding the node's elements in order. */
  function FromNode<T>(node: Elem<T>): (r: Affix<T>)
    requires !node.Leaf?
    ensures Slots(r) == Children(node)
  {
    match node
    case Branch2(x, y) => Two(x, y)
    case Branch3(x, y, z) => Three(x, y, z)
  }

  // ---------------------------------------------------------------- Tree

  datatype Tree<T> = Empty | Singleton(value: Elem<T>) | Deep(prefix: Affix<T>, deeper: Tree<T>, suffix: Affix<T>)

  /** The values of a tree in iteration order: the prefix, the deeper tree's
      nodes flattened, the suffix. */
  function ToList<T>(t: Tree<T>): seq<T>
  {
    match t
    case Empty => []
    case Singleton(v) => Items(v)
    case Deep(p, d, s) => AffixItems(p) + ToList(d) + AffixItems(s)
  }

  /** Tree `t` holds depth-`n` elements and its deeper trees ever deeper ones. */
  ghost predicate Well<T>(t: Tree<T>, n: nat)
  {
    match t
    case Empty => true
    case Singleton(v) => Level(v, n)
    case Deep(p, d, s) => AllLevel(Slots(p), n) && AllLevel(Slots(s), n) && Well(d, n + 1)
  }

  /** `Functions.prepend(x, tree)`; a full prefix keeps `[x, a]` and pushes
      `Branch3(b, c, d)` into the deeper tree. */
  function Prepend<T>(x: Elem<T>, t: Tree<T>): (r: Tree<T>)
    ensures ToList(r) == Items(x) + ToList(t)
    ensures !r.Empty? && (!t.Empty? ==> r.Deep?)
    decreases t
  {
    match t
    case Empty => Singleton(x)
    case Singleton(v) =>
      ItemsOfAllOne(x);
      ItemsOfAllOne(v);
      Deep(One(x), Empty, One(v))
    case Deep(p, d, s) =>
      if p.Four? then
        var node := Branch3(p.b, p.c, p.d);
        FullPrefixItems(x, p, Prepend(node, d), d, s);
        Deep(Two(x, p.a), Prepend(node, d), s)
      else
        ItemsOfAllConcat([x], Slots(p));
        ItemsOfAllOne(x);
        Deep(AffixPrepend(x, p).value, d, s)
  }

  /** Prepending to a full prefix: `[x, a]` and `Branch3(b, c, d)` pushed into
      the deeper tree keep the values in order. */
  lemma FullPrefixItems<T>(x: Elem<T>, p: Affix<T>, grown: Tree<T>, d: Tree<T>, s: Affix<T>)
    requires p.Four?
    requires ToList(grown) == Items(Branch3(p.b, p.c, p.d)) + ToList(d)
    ensures ToList(Deep(Two(x, p.a), grown, s)) == Items(x) + ToList(Deep(p, d, s))
  {
    ItemsOfTwo(x, p.a);
    ItemsOfFour(p.a, p.b, p.c, p.d);
    var xs, ys, bs, ds, ss := Items(x), Items(p.a), Items(Branch3(p.b, p.c, p.d)), ToList(d), AffixItems(s);
    assert AffixItems(Two(x, p.a)) == xs + ys;
    assert AffixItems(p) == ys + bs;
    assert ToList(Deep(Two(x, p.a), grown, s)) == (xs + ys) + (bs + ds) + ss;
    assert ToList(Deep(p, d, s)) == (ys + bs) + ds + ss;
    SeqAssoc(xs, ys, bs, ds, ss);
  }

  /** `Functions.append(tree, x)`; a full suffix pushes `Branch3(a, b, c)` into
      the deeper tree and keeps `[d, x]`. */
  function Append<T>(t: Tree<T>, x: Elem<T>): (r: Tree<T>)
    ensures ToList(r) == ToList(t) + Items(x)
    ensures !r.Empty? && (!t.Empty? ==> r.Deep?)
  {
    match t
    case Empty => Singleton(x)
    case Singleton(v) =>
      ItemsOfAllOne(x);
      ItemsOfAllOne(v);
      Deep(One(v), Empty, One(x))
    case Deep(p, d, s) =>
      if s.Four? then
        var node := Branch3(s.a, s.b, s.c);
        FullSuffixItems(p, d, Append(d, node), s, x);
        Deep(p, Append(d, node), Two(s.d, x))
      else
        ItemsOfAllConcat(Slots(s), [x]);
        ItemsOfAllOne(x);
        Deep(p, d, AffixAppend(s, x).value)
  }

  lemma Assoc<T>(a: seq<T>, b: seq<T>, c: seq<T>)
    ensures a + (b + c) == a + b + c
  {
  }

  lemma SeqAssoc<T>(a: seq<T>, b: seq<T>, c: seq<T>, d: seq<T>, e: seq<T>)
    ensures (a + b) + (c + d) + e == a + ((b + c) + d + e)
  {
  }

  /** Appending to a full suffix: `Branch3(a, b, c)` pushed into the deeper
      tree and `[d, x]` keep the values in order. */
  lemma FullSuffixItems<T>(p: Affix<T>, d: Tree<T>, grown: Tree<T>, s: Affix<T>, x: Elem<T>)
    requires s.Four?
    requires ToList(grown) == ToList(d) + Items(Branch3(s.a, s.b, s.c))
    ensures ToList(Deep(p, grown, Two(s.d, x))) == ToList(Deep(p, d, s)) + Items(x)
  {
    ItemsOfTwo(s.d, x);
    ItemsOfFour(s.a, s.b, s.c, s.d);
    var ps, ds, bs, ys, xs := AffixItems(p), ToList(d), Items(Branch3(s.a, s.b, s.c)), Items(s.d), Items(x);
    assert AffixItems(Two(s.d, x)) == ys + xs;
    assert AffixItems(s) == bs + ys;
    assert ToList(Deep(p, grown, Two(s.d, x))) == ps + (ds + bs) + (ys + xs);
    assert ToList(Deep(p, d, s)) == ps + ds + (bs + ys);
    SeqAssocBack(ps, ds, bs, ys, xs);
  }

  lemma SeqAssocBack<T>(a: seq<T>, b: seq<T>, c: seq<T>, d: seq<T>, e: seq<T>)
    ensures a + (b + c) + (d + e) == a + b + (c + d) + e
  {
  }

  /** The four elements of a full affix, and the nodes made of three of them. */
  lemma FourLevels<T>(affix: Affix<T>, n: nat)
    requires affix.Four? && AllLevel(Slots(affix), n)
    ensures Level(affix.a, n) && Level(affix.d, n)
    ensures Level(Branch3(affix.a, affix.b, affix.c), n + 1) && Level(Branch3(affix.b, affix.c, affix.d), n + 1)
  {
    assert Level(Slots(affix)[0], n) && Level(Slots(affix)[1], n) && Level(Slots(affix)[2], n) && Level(Slots(affix)[3], n);
  }

  lemma {:induction false} PrependWell<T>(x: Elem<T>, t: Tree<T>, n: nat)
    requires Level(x, n) && Well(t, n)
    ensures Well(Prepend(x, t), n)
    decreases t
  {
    match t
    case Empty =>
    case Singleton(v) =>
    case Deep(p, d, s) =>
      if p.Four? {
        FourLevels(p, n);
        PrependWell(Branch3(p.b, p.c, p.d), d, n + 1);
        assert Prepend(x, t) == Deep(Two(x, p.a), Prepend(Branch3(p.b, p.c, p.d), d), s);
        assert AllLevel(Slots(Two(x, p.a)), n);
      } else {
        assert AllLevel(Slots(AffixPrepend(x, p).value), n) by {
          assert Slots(AffixPrepend(x, p).value) == [x] + Slots(p);
        }
      }
  }

  lemma {:induction false} AppendWell<T>(t: Tree<T>, x: Elem<T>, n: nat)
    requires Well(t, n) && Level(x, n)
    ensures Well(Append(t, x), n)
  {
    match t
    case Empty =>
    case Singleton(v) =>
    case Deep(p, d, s) =>
      if s.Four? {
        FourLevels(s, n);
        AppendWell(d, Branch3(s.a, s.b, s.c), n + 1);
        assert Append(t, x) == Deep(p, Append(d, Branch3(s.a, s.b, s.c)), Two(s.d, x));
        assert AllLevel(Slots(Two(s.d, x)), n);
      } else {
        assert AllLevel(Slots(AffixAppend(s, x).value), n) by {
          assert Slots(AffixAppend(s, x).value) == Slots(s) + [x];
        }
      }
  }

  // ---------------------------------------------------------------- Views

  /** `ViewLeft`: `Nil`, or the first element and the tree of the rest. */
  datatype LeftView<T> = LeftNil | LeftCons(x: Elem<T>, rest: Tree<T>)

  /** `ViewRight`: `Nil`, or the tree of all but the last element and the last. */
  datatype RightView<T> = RightNil | RightSnoc(rest: Tree<T>, x: Elem<T>)

  /** The tree an affix becomes when the deeper tree and the other affix are
      gone, as `viewLeft` builds it from the suffix. */
  function SuffixTree<T>(s: Affix<T>): (r: Tree<T>)
    ensures ToList(r) == AffixItems(s)
    ensures forall n: nat :: AllLevel(Slots(s), n) ==> Well(r, n)
  {
    match s
    case One(a) =>
      ItemsOfAllOne(a);
      Singleton(a)
    case Two(a, b) =>
      ItemsOfAllOne(a);
      ItemsOfAllOne(b);
      ItemsOfTwo(a, b);
      Deep(One(a), Empty, One(b))
    case Three(a, b, c) =>
      ItemsOfAllOne(c);
      ItemsOfTwo(a, b);
      ItemsOfThree(a, b, c);
      Deep(Two(a, b), Empty, One(c))
    case Four(a, b, c, d) =>
      ItemsOfTwo(a, b);
      ItemsOfTwo(c, d);
      ItemsOfFour(a, b, c, d);
      Deep(Two(a, b), Empty, Two(c, d))
  }

  /** The tree `viewRight` builds from the prefix when nothing else is left. */
  function PrefixTree<T>(p: Affix<T>): (r: Tree<T>)
    ensures ToList(r) == AffixItems(p)
    ensures forall n: nat :: AllLevel(Slots(p), n) ==> Well(r, n)
  {
    match p
    case One(a) =>
      ItemsOfAllOne(a);
      Singleton(a)
    case Two(a, b) =>
      ItemsOfAllOne(a);
      ItemsOfAllOne(b);
      ItemsOfTwo(a, b);
      Deep(One(a), Empty, One(b))
    case Three(a, b, c) =>
      ItemsOfAllOne(a);
      ItemsOfTwo(b, c);
      ItemsOfThree(a, b, c);
      Deep(One(a), Empty, Two(b, c))
    case Four(a, b, c, d) =>
      ItemsOfTwo(a, b);
      ItemsOfTwo(c, d);
      ItemsOfFour(a, b, c, d);
      Deep(Two(a, b), Empty, Two(c, d))
  }

  /** An affix without its first element, if it has more than one. */
  function AffixTail<T>(p: Affix<T>): (r: Affix<T>)
    requires !p.One?
    ensures Slots(r) == Slots(p)[1..]
  {
    match p
    case Two(_, b) => One(b)
    case Three(_, b, c) => Two(b, c)
    case Four(_, b, c, d) => Three(b, c, d)
  }

  /** An affix without its last element, if it has more than one. */
  function AffixInit<T>(s: Affix<T>): (r: Affix<T>)
    requires !s.One?
    ensures Slots(r) == Slots(s)[..|Slots(s)| - 1]
  {
    match s
    case Two(a, _) => One(a)
    case Three(a, b, _) => Two(a, b)
    case Four(a, b, c, _) => Three(a, b, c)
  }

  /** `Functions.viewLeft`: `Nil` exactly for the empty tree, otherwise the
      first element and a well-formed tree of the rest. */
  function ViewLeft<T>(t: Tree<T>, ghost n: nat): (r: LeftView<T>)
    requires Well(t, n)
    ensures r.LeftNil? <==> t.Empty?
    ensures r.LeftCons? ==> Items(r.x) + ToList(r.rest) == ToList(t)
    ensures r.LeftCons? ==> Level(r.x, n) && Well(r.rest, n)
    decreases t
  {
    match t
    case Empty => LeftNil
    case Singleton(v) => LeftCons(v, Empty)
    case Deep(p, d, s) =>
      assert Level(Slots(p)[0], n);
      if p.One? then
        var view := ViewLeft(d, n + 1);
        if view.LeftNil? then
          ItemsOfAllOne(p.a);
          LeftCons(p.a, SuffixTree(s))
        else
          ChildrenLevel(view.x, n);
          PulledLeftItems(p, d, s, view.x, view.rest);
          LeftCons(p.a, Deep(FromNode(view.x), view.rest, s))
      else
        TailLeftItems(p, d, s);
        LeftCons(p.a, Deep(AffixTail(p), d, s))
  }

  /** A prefix of one: the first node of the deeper tree becomes the prefix. */
  lemma PulledLeftItems<T>(p: Affix<T>, d: Tree<T>, s: Affix<T>, x: Elem<T>, rest: Tree<T>)
    requires p.One? && !x.Leaf? && Items(x) + ToList(rest) == ToList(d)
    ensures Items(p.a) + ToList(Deep(FromNode(x), rest, s)) == ToList(Deep(p, d, s))
  {
    ItemsOfAllOne(p.a);
    var as_, xs, rs, ss := Items(p.a), Items(x), ToList(rest), AffixItems(s);
    assert AffixItems(FromNode(x)) == xs;
    assert ToList(Deep(FromNode(x), rest, s)) == xs + rs + ss;
    assert ToList(Deep(p, d, s)) == as_ + (xs + rs) + ss;
    Assoc(as_, xs + rs, ss);
  }

  /** A longer prefix: its first element comes off. */
  lemma TailLeftItems<T>(p: Affix<T>, d: Tree<T>, s: Affix<T>)
    requires !p.One?
    ensures Items(p.a) + ToList(Deep(AffixTail(p), d, s)) == ToList(Deep(p, d, s))
  {
    assert Slots(p) == [p.a] + Slots(AffixTail(p));
    ItemsOfAllConcat([p.a], Slots(AffixTail(p)));
    ItemsOfAllOne(p.a);
    var as_, ts, ds, ss := Items(p.a), AffixItems(AffixTail(p)), ToList(d), AffixItems(s);
    assert AffixItems(p) == as_ + ts;
    assert ToList(Deep(AffixTail(p), d, s)) == ts + ds + ss;
    assert ToList(Deep(p, d, s)) == (as_ + ts) + ds + ss;
    Assoc(as_, ts + ds, ss);
    Assoc(as_, ts, ds);
  }

  /** `Functions.viewRight`: `Nil` exactly for the empty tree, otherwise a
      well-formed tree of all but the last element, and the last. */
  function ViewRight<T>(t: Tree<T>, ghost n: nat): (r: RightView<T>)
    requires Well(t, n)
    ensures r.RightNil? <==> t.Empty?
    ensures r.RightSnoc? ==> ToList(r.rest) + Items(r.x) == ToList(t)
    ensures r.RightSnoc? ==> Level(r.x, n) && Well(r.rest, n)
    decreases t
  {
    match t
    case Empty => RightNil
    case Singleton(v) => RightSnoc(Empty, v)
    case Deep(p, d, s) =>
      var last := Slots(s)[|Slots(s)| - 1];
      assert Level(last, n);
      if s.One? then
        var view := ViewRight(d, n + 1);
        if view.RightNil? then
          ItemsOfAllOne(s.a);
          RightSnoc(PrefixTree(p), s.a)
        else
          ChildrenLevel(view.x, n);
          PulledRightItems(p, d, s, view.rest, view.x);
          RightSnoc(Deep(p, view.rest, FromNode(view.x)), s.a)
      else
        InitRightItems(p, d, s);
        RightSnoc(Deep(p, d, AffixInit(s)), last)
  }

  /** A suffix of one: the last node of the deeper tree becomes the suffix. */
  lemma PulledRightItems<T>(p: Affix<T>, d: Tree<T>, s: Affix<T>, rest: Tree<T>, x: Elem<T>)
    requires s.One? && !x.Leaf? && ToList(rest) + Items(x) == ToList(d)
    ensures ToList(Deep(p, rest, FromNode(x))) + Items(s.a) == ToList(Deep(p, d, s))
  {
    ItemsOfAllOne(s.a);
    var ps, rs, xs, as_ := AffixItems(p), ToList(rest), Items(x), Items(s.a);
    assert AffixItems(FromNode(x)) == xs;
    assert ToList(Deep(p, rest, FromNode(x))) == ps + rs + xs;
    assert ToList(Deep(p, d, s)) == ps + (rs + xs) + as_;
    Assoc(ps, rs, xs);
  }

  /** A longer suffix: its last element comes off. */
  lemma InitRightItems<T>(p: Affix<T>, d: Tree<T>, s: Affix<T>)
    requires !s.One?
    ensures var last := Slots(s)[|Slots(s)| - 1];
      ToList(Deep(p, d, AffixInit(s))) + Items(last) == ToList(Deep(p, d, s))
  {
    var last := Slots(s)[|Slots(s)| - 1];
    assert Slots(s) == Slots(AffixInit(s)) + [last];
    ItemsOfAllConcat(Slots(AffixInit(s)), [last]);
    ItemsOfAllOne(last);
    var ps, ds, is_, ls := AffixItems(p), ToList(d), AffixItems(AffixInit(s)), Items(last);
    assert AffixItems(s) == is_ + ls;
    assert ToList(Deep(p, d, AffixInit(s))) == ps + ds + is_;
    assert ToList(Deep(p, d, s)) == ps + ds + (is_ + ls);
    Assoc(ps + ds, is_, ls);
  }

  // ---------------------------------------------------------------- Concatenation

  /** Two to eight elements grouped into nodes, threes first: two elements
      make one `Branch2`, four make two. */
  function Nodes<T>(es: seq<Elem<T>>): (r: seq<Elem<T>>)
    requires 2 <= |es|
    ensures ItemsOfAll(r) == ItemsOfAll(es)
    ensures 1 <= |r| <= (|es| + 2) / 3
    decreases |es|
  {
    if |es| == 2 then
      assert es == [es[0], es[1]];
      ItemsOfTwo(es[0], es[1]);
      ItemsOfAllOne(Branch2(es[0], es[1]));
      [Branch2(es[0], es[1])]
    else if |es| == 3 then
      assert es == [es[0], es[1], es[2]];
      ItemsOfThree(es[0], es[1], es[2]);
      ItemsOfAllOne(Branch3(es[0], es[1], es[2]));
      [Branch3(es[0], es[1], es[2])]
    else if |es| == 4 then
      assert es == [es[0], es[1]] + [es[2], es[3]];
      ItemsOfAllConcat([es[0], es[1]], [es[2], es[3]]);
      ItemsOfTwo(es[0], es[1]);
      ItemsOfTwo(es[2], es[3]);
      ItemsOfTwo(Branch2(es[0], es[1]), Branch2(es[2], es[3]));
      [Branch2(es[0], es[1]), Branch2(es[2], es[3])]
    else
      var first := Branch3(es[0], es[1], es[2]);
      var rest := Nodes(es[3..]);
      assert es == [es[0], es[1], es[2]] + es[3..];
      ItemsOfAllConcat([es[0], es[1], es[2]], es[3..]);
      ItemsOfThree(es[0], es[1], es[2]);
      ItemsOfAllConcat([first], rest);
      ItemsOfAllOne(first);
      [first] + rest
  }

  /** Grouping elements of depth `n` gives nodes of depth `n + 1`. */
  lemma {:induction false} NodesLevel<T>(es: seq<Elem<T>>, n: nat)
    requires 2 <= |es| && AllLevel(es, n)
    ensures AllLevel(Nodes(es), n + 1)
    decreases |es|
  {
    if |es| > 4 {
      assert AllLevel(es[3..], n);
      NodesLevel(es[3..], n);
      assert Nodes(es) == [Branch3(es[0], es[1], es[2])] + Nodes(es[3..]);
    }
  }

  /** `Functions.join(left, right)`: the elements of both affixes, left's
      first, grouped into one to three nodes. Its sixteen cases are the
      grouping of `Nodes` for each pair of affix sizes. */
  function Join<T>(left: Affix<T>, right: Affix<T>): (r: seq<Elem<T>>)
    ensures 1 <= |r| <= 3
    ensures ItemsOfAll(r) == AffixItems(left) + AffixItems(right)
  {
    ItemsOfAllConcat(Slots(left), Slots(right));
    Nodes(Slots(left) + Slots(right))
  }

  lemma JoinLevel<T>(left: Affix<T>, right: Affix<T>, n: nat)
    requires AllLevel(Slots(left), n) && AllLevel(Slots(right), n)
    ensures AllLevel(Join(left, right), n + 1)
  {
    NodesLevel(Slots(left) + Slots(right), n);
  }

  lemma ItemsOfSnoc<T>(nodes: seq<Elem<T>>)
    requires nodes != []
    ensures ItemsOfAll(nodes) == ItemsOfAll(nodes[..|nodes| - 1]) + Items(nodes[|nodes| - 1])
  {
    var init, last := nodes[..|nodes| - 1], nodes[|nodes| - 1];
    assert init + [last] == nodes;
    ItemsOfAllConcat(init, [last]);
    ItemsOfAllOne(last);
  }

  /** What `prependArray(nodes, tree)` computes: the nodes prepended from the
      last to the first. */
  function PrependAll<T>(nodes: seq<Elem<T>>, t: Tree<T>): (r: Tree<T>)
    ensures ToList(r) == ItemsOfAll(nodes) + ToList(t)
  {
    if nodes == [] then t else Prepend(nodes[0], PrependAll(nodes[1..], t))
  }

  /** What `appendArray(tree, nodes)` computes: the nodes appended from the
      first to the last. A deep tree stays deep. */
  function AppendAll<T>(t: Tree<T>, nodes: seq<Elem<T>>): (r: Tree<T>)
    ensures ToList(r) == ToList(t) + ItemsOfAll(nodes)
    ensures t.Deep? ==> r.Deep?
    decreases |nodes|
  {
    if nodes == [] then t
    else
      var grown := AppendAll(t, nodes[..|nodes| - 1]);
      AppendLastItems(t, nodes, grown);
      Append(grown, nodes[|nodes| - 1])
  }

  lemma AppendLastItems<T>(t: Tree<T>, nodes: seq<Elem<T>>, grown: Tree<T>)
    requires nodes != []
    requires ToList(grown) == ToList(t) + ItemsOfAll(nodes[..|nodes| - 1])
    ensures ToList(Append(grown, nodes[|nodes| - 1])) == ToList(t) + ItemsOfAll(nodes)
  {
    ItemsOfSnoc(nodes);
  }

  lemma {:induction false} PrependAllWell<T>(nodes: seq<Elem<T>>, t: Tree<T>, n: nat)
    requires AllLevel(nodes, n) && Well(t, n)
    ensures Well(PrependAll(nodes, t), n)
  {
    if nodes != [] {
      assert AllLevel(nodes[1..], n);
      PrependAllWell(nodes[1..], t, n);
      PrependWell(nodes[0], PrependAll(nodes[1..], t), n);
    }
  }

  lemma {:induction false} AppendAllWell<T>(t: Tree<T>, nodes: seq<Elem<T>>, n: nat)
    requires Well(t, n) && AllLevel(nodes, n)
    ensures Well(AppendAll(t, nodes), n)
  {
    if nodes != [] {
      var init := nodes[..|nodes| - 1];
      assert AllLevel(init, n);
      AppendAllWell(t, init, n);
      AppendWell(AppendAll(t, init), nodes[|nodes| - 1], n);
    }
  }

  /** The inner `Functions.concatenate(left, leftSuffix, rightPrefix, right)`
      on the deeper trees of two deep trees, with the affixes between them;
      `Concat3Items` states what it computes. */
  function Concat3<T>(left: Tree<T>, leftSuffix: Affix<T>, rightPrefix: Affix<T>, right: Tree<T>): (r: Tree<T>)
    ensures left.Deep? && right.Deep? ==> r.Deep?
    decreases right
  {
    var middle := Join(leftSuffix, rightPrefix);
    match left
    case Empty => PrependAll(middle, right)
    case Singleton(v) => Prepend(v, PrependAll(middle, right))
    case Deep(_, _, _) =>
      match right
      case Empty => AppendAll(left, middle)
      case Singleton(v) => Append(AppendAll(left, middle), v)
      case Deep(rp, rd, rs) =>
        var grown := AppendAll(left, middle);
        Deep(grown.prefix, Concat3(grown.deeper, grown.suffix, rp, rd), rs)
  }

  /** The values of the inner concatenation: the left tree's, the two
      affixes', then the right tree's. */
  lemma {:induction false} Concat3Items<T>(left: Tree<T>, leftSuffix: Affix<T>, rightPrefix: Affix<T>, right: Tree<T>)
    ensures ToList(Concat3(left, leftSuffix, rightPrefix, right)) == ToList(left) + AffixItems(leftSuffix) + AffixItems(rightPrefix) + ToList(right)
    decreases right, 1
  {
    if !left.Deep? {
      Concat3FrontItems(left, leftSuffix, rightPrefix, right);
    } else if !right.Deep? {
      Concat3BackItems(left, leftSuffix, rightPrefix, right);
    } else {
      Concat3DeepItems(left, leftSuffix, rightPrefix, right);
    }
  }

  /** The cases of `Concat3Items` where the left tree is not deep. */
  lemma Concat3FrontItems<T>(left: Tree<T>, leftSuffix: Affix<T>, rightPrefix: Affix<T>, right: Tree<T>)
    requires !left.Deep?
    ensures ToList(Concat3(left, leftSuffix, rightPrefix, right)) == ToList(left) + AffixItems(leftSuffix) + AffixItems(rightPrefix) + ToList(right)
  {
    var middle := Join(leftSuffix, rightPrefix);
    Concat3Front(left, leftSuffix, rightPrefix, right);
    var inner := PrependAll(middle, right);
    var front := if left.Empty? then [] else Items(left.value);
    assert ToList(Concat3(left, leftSuffix, rightPrefix, right)) == front + ToList(inner);
    assert ToList(inner) == ItemsOfAll(middle) + ToList(right);
    assert ToList(left) == front;
    ShapeFront(front, AffixItems(leftSuffix), AffixItems(rightPrefix), ItemsOfAll(middle), ToList(right));
  }

  /** The regrouping of the cases where the left tree is not deep. */
  lemma ShapeFront<T>(front: seq<T>, a: seq<T>, b: seq<T>, middle: seq<T>, rs: seq<T>)
    requires middle == a + b
    ensures front + (middle + rs) == front + a + b + rs
  {
  }

  /** The two cases of `Concat3` with a left tree that is not deep. */
  lemma Concat3Front<T>(left: Tree<T>, leftSuffix: Affix<T>, rightPrefix: Affix<T>, right: Tree<T>)
    requires !left.Deep?
    ensures var inner := PrependAll(Join(leftSuffix, rightPrefix), right);
      Concat3(left, leftSuffix, rightPrefix, right) == if left.Empty? then inner else Prepend(left.value, inner)
  {
  }

  /** The cases of `Concat3Items` where only the left tree is deep. */
  lemma Concat3BackItems<T>(left: Tree<T>, leftSuffix: Affix<T>, rightPrefix: Affix<T>, right: Tree<T>)
    requires left.Deep? && !right.Deep?
    ensures ToList(Concat3(left, leftSuffix, rightPrefix, right)) == ToList(left) + AffixItems(leftSuffix) + AffixItems(rightPrefix) + ToList(right)
  {
    var middle := Join(leftSuffix, rightPrefix);
    var r := Concat3(left, leftSuffix, rightPrefix, right);
    var ls, a, b, rs := ToList(left), AffixItems(leftSuffix), AffixItems(rightPrefix), ToList(right);
    if right.Empty? {
      assert r == AppendAll(left, middle);
      Shape(ls, a, b, rs, ls, ItemsOfAll(middle), [], ToList(r));
    } else {
      assert r == Append(AppendAll(left, middle), right.value);
      Shape(ls, a, b, rs, ls, ItemsOfAll(middle), Items(right.value), ToList(r));
    }
  }

  /** The regrouping each case of `Concat3Items` ends with. */
  lemma Shape<T>(ls: seq<T>, a: seq<T>, b: seq<T>, rs: seq<T>, front: seq<T>, middle: seq<T>, back: seq<T>, got: seq<T>)
    requires ls == front && middle == a + b && rs == back
    requires got == front + middle + back
    ensures got == ls + a + b + rs
  {
  }

  /** The case of `Concat3Items` where both trees are deep. */
  lemma {:induction false} Concat3DeepItems<T>(left: Tree<T>, leftSuffix: Affix<T>, rightPrefix: Affix<T>, right: Tree<T>)
    requires left.Deep? && right.Deep?
    ensures ToList(Concat3(left, leftSuffix, rightPrefix, right)) == ToList(left) + AffixItems(leftSuffix) + AffixItems(rightPrefix) + ToList(right)
    decreases right, 0
  {
    var middle := Join(leftSuffix, rightPrefix);
    var grown := AppendAll(left, middle);
    var inner := Concat3(grown.deeper, grown.suffix, right.prefix, right.deeper);
    assert Concat3(left, leftSuffix, rightPrefix, right) == Deep(grown.prefix, inner, right.suffix);
    Concat3Items(grown.deeper, grown.suffix, right.prefix, right.deeper);
    DeepItems(grown.prefix, inner, right.suffix, grown.deeper, grown.suffix, right.prefix, right.deeper);
    var r := Concat3(left, leftSuffix, rightPrefix, right);
    Shape(ToList(left), AffixItems(leftSuffix), AffixItems(rightPrefix), ToList(right), ToList(left), ItemsOfAll(middle), ToList(right), ToList(r));
  }

  lemma DeepItems<T>(p: Affix<T>, inner: Tree<T>, s: Affix<T>, d: Tree<T>, ls: Affix<T>, rp: Affix<T>, rd: Tree<T>)
    requires ToList(inner) == ToList(d) + AffixItems(ls) + AffixItems(rp) + ToList(rd)
    ensures ToList(Deep(p, inner, s)) == ToList(Deep(p, d, ls)) + ToList(Deep(rp, rd, s))
  {
    Regroup(AffixItems(p), ToList(d), AffixItems(ls), AffixItems(rp), ToList(rd), AffixItems(s), ToList(inner));
  }

  lemma Regroup<T>(ps: seq<T>, ds: seq<T>, lss: seq<T>, rps: seq<T>, rds: seq<T>, ss: seq<T>, inner: seq<T>)
    requires inner == ds + lss + rps + rds
    ensures ps + inner + ss == (ps + ds + lss) + (rps + rds + ss)
  {
  }

  /** `Functions.concatenate(left, right)`: the values of `left`, then those
      of `right`. */
  function Concatenate<T>(left: Tree<T>, right: Tree<T>): (r: Tree<T>)
    ensures ToList(r) == ToList(left) + ToList(right)
  {
    match left
    case Empty => right
    case Singleton(v) => Prepend(v, right)
    case Deep(lp, ld, ls) =>
      match right
      case Empty => left
      case Singleton(v) => Append(left, v)
      case Deep(rp, rd, rs) =>
        var inner := Concat3(ld, ls, rp, rd);
        Concat3Items(ld, ls, rp, rd);
        DeepItems(lp, inner, rs, ld, ls, rp, rd);
        Deep(lp, inner, rs)
  }

  lemma {:induction false} Concat3Well<T>(left: Tree<T>, leftSuffix: Affix<T>, rightPrefix: Affix<T>, right: Tree<T>, n: nat)
    requires Well(left, n + 1) && Well(right, n + 1)
    requires AllLevel(Slots(leftSuffix), n) && AllLevel(Slots(rightPrefix), n)
    ensures Well(Concat3(left, leftSuffix, rightPrefix, right), n + 1)
    decreases right, 1
  {
    var middle := Join(leftSuffix, rightPrefix);
    JoinLevel(leftSuffix, rightPrefix, n);
    match left
    case Empty => PrependAllWell(middle, right, n + 1);
    case Singleton(v) =>
      PrependAllWell(middle, right, n + 1);
      PrependWell(v, PrependAll(middle, right), n + 1);
    case Deep(_, _, _) =>
      AppendAllWell(left, middle, n + 1);
      match right
      case Empty =>
      case Singleton(v) => AppendWell(AppendAll(left, middle), v, n + 1);
      case Deep(_, _, _) => Concat3DeepWell(left, leftSuffix, rightPrefix, right, n);
  }

  /** The case of `Concat3Well` where both trees are deep. */
  lemma {:induction false} Concat3DeepWell<T>(left: Tree<T>, leftSuffix: Affix<T>, rightPrefix: Affix<T>, right: Tree<T>, n: nat)
    requires left.Deep? && right.Deep?
    requires Well(left, n + 1) && Well(right, n + 1)
    requires AllLevel(Slots(leftSuffix), n) && AllLevel(Slots(rightPrefix), n)
    requires Well(AppendAll(left, Join(leftSuffix, rightPrefix)), n + 1)
    ensures Well(Concat3(left, leftSuffix, rightPrefix, right), n + 1)
    decreases right, 0
  {
    var grown := AppendAll(left, Join(leftSuffix, rightPrefix));
    Concat3Well(grown.deeper, grown.suffix, right.prefix, right.deeper, n + 1);
    assert Concat3(left, leftSuffix, rightPrefix, right) == Deep(grown.prefix, Concat3(grown.deeper, grown.suffix, right.prefix, right.deeper), right.suffix);
  }

  /** Concatenation keeps the depth invariant. */
  lemma ConcatenateWell<T>(left: Tree<T>, right: Tree<T>, n: nat)
    requires Well(left, n) && Well(right, n)
    ensures Well(Concatenate(left, right), n)
  {
    match left
    case Empty =>
    case Singleton(v) => PrependWell(v, right, n);
    case Deep(lp, ld, ls) =>
      match right
      case Empty =>
      case Singleton(v) => AppendWell(left, v, n);
      case Deep(rp, rd, rs) => Concat3Well(ld, ls, rp, rd, n);
  }

  // ---------------------------------------------------------------- Loops

  /** `Functions.prependArray`: prepends the nodes from the last to the first. */
  method PrependArray<T>(nodes: array<Elem<T>>, t: Tree<T>) returns (r: Tree<T>)
    ensures r == PrependAll(nodes[..], t)
    ensures ToList(r) == ItemsOfAll(nodes[..]) + ToList(t)
  {
    r := t;
    var i := nodes.Length - 1;
    while i >= 0
      invariant -1 <= i < nodes.Length
      invariant r == PrependAll(nodes[i + 1..], t)
    {
      assert nodes[i..][1..] == nodes[i + 1..];
      r := Prepend(nodes[i], r);
      i := i - 1;
    }
    assert nodes[0..] == nodes[..];
  }

  /** `Functions.appendArray`: appends the nodes from the first to the last. */
  method AppendArray<T>(t: Tree<T>, nodes: array<Elem<T>>) returns (r: Tree<T>)
    ensures r == AppendAll(t, nodes[..])
    ensures ToList(r) == ToList(t) + ItemsOfAll(nodes[..])
  {
    r := t;
    for i := 0 to nodes.Length
      invariant r == AppendAll(t, nodes[..i])
    {
      assert nodes[..i + 1][..i] == nodes[..i];
      r := Append(r, nodes[i]);
    }
    assert nodes[..nodes.Length] == nodes[..];
  }

  /** `FingerTree.from(array)` (and `from(iterable)`): the values appended one
      by one into an empty tree; the tree holds them in order. */
  method From<T>(values: array<T>) returns (tree: Tree<T>)
    ensures ToList(tree) == values[..]
    ensures Well(tree, 0)
  {
    tree := Empty;
    for i := 0 to values.Length
      invariant ToList(tree) == values[..i]
      invariant Well(tree, 0)
    {
      AppendWell(tree, Leaf(values[i]), 0);
      tree := Append(tree, Leaf(values[i]));
      assert values[..i + 1] == values[..i] + [values[i]];
    }
    assert values[..values.Length] == values[..];
  }

  // ---------------------------------------------------------------- Iteration

  /** The elements of all the given nodes, one level down, in order. */
  function Unwrap<T>(nodes: seq<Elem<T>>): (es: seq<Elem<T>>)
    requires forall k | 0 <= k < |nodes| :: !nodes[k].Leaf?
    ensures ItemsOfAll(es) == ItemsOfAll(nodes)
  {
    if nodes == [] then []
    else
      var rest := Unwrap(nodes[1..]);
      ItemsOfAllConcat(Children(nodes[0]), rest);
      Children(nodes[0]) + rest
  }

  lemma {:induction false} UnwrapLevel<T>(nodes: seq<Elem<T>>, n: nat)
    requires AllLevel(nodes, n + 1)
    ensures forall k | 0 <= k < |nodes| :: !nodes[k].Leaf?
    ensures AllLevel(Unwrap(nodes), n)
  {
    if nodes != [] {
      assert AllLevel(nodes[1..], n + 1);
      UnwrapLevel(nodes[1..], n);
      ChildrenLevel(nodes[0], n);
      var c, rest := Children(nodes[0]), Unwrap(nodes[1..]);
      assert Unwrap(nodes) == c + rest;
      forall k | 0 <= k < |c + rest|
        ensures Level((c + rest)[k], n)
      {
        if k >= |c| {
          assert (c + rest)[k] == rest[k - |c|];
        }
      }
    }
  }

  /** The elements a tree's iterator yields: a `Singleton`'s value, or a
      `Deep` tree's prefix, the elements of the deeper tree's nodes, and its
      suffix. They are of the tree's own depth and hold its values in order. */
  function ElemsOf<T>(t: Tree<T>, ghost n: nat): (es: seq<Elem<T>>)
    requires Well(t, n)
    ensures AllLevel(es, n)
    ensures ItemsOfAll(es) == ToList(t)
  {
    match t
    case Empty => []
    case Singleton(v) =>
      ItemsOfAllOne(v);
      [v]
    case Deep(p, d, s) =>
      var inner := ElemsOf(d, n + 1);
      UnwrapLevel(inner, n);
      var middle := Unwrap(inner);
      ItemsOfAllConcat(Slots(p), middle);
      ItemsOfAllConcat(Slots(p) + middle, Slots(s));
      AllLevelConcat(Slots(p), middle, n);
      AllLevelConcat(Slots(p) + middle, Slots(s), n);
      Slots(p) + middle + Slots(s)
  }

  lemma AllLevelConcat<T>(a: seq<Elem<T>>, b: seq<Elem<T>>, n: nat)
    requires AllLevel(a, n) && AllLevel(b, n)
    ensures AllLevel(a + b, n)
  {
    forall k | 0 <= k < |a + b|
      ensures Level((a + b)[k], n)
    {
      if k >= |a| {
        assert (a + b)[k] == b[k - |a|];
      }
    }
  }

  /** A tree of values (depth 0) yields one `Leaf` per value, in order. */
  lemma {:induction false} LeavesInOrder<T>(es: seq<Elem<T>>)
    requires AllLevel(es, 0)
    ensures |ItemsOfAll(es)| == |es|
    ensures forall k | 0 <= k < |es| :: es[k] == Leaf(ItemsOfAll(es)[k])
  {
    if es != [] {
      assert AllLevel(es[1..], 0);
      LeavesInOrder(es[1..]);
      assert es[0].Leaf?;
      assert ItemsOfAll(es) == [es[0].value] + ItemsOfAll(es[1..]);
      forall k | 0 <= k < |es|
        ensures es[k] == Leaf(ItemsOfAll(es)[k])
      {
        if k > 0 {
          assert es[k] == es[1..][k - 1];
        }
      }
    }
  }

  /** The iterator of an affix (`One` .. `Four`), of a node (`Branch2`,
      `Branch3`) and of a `Singleton` tree: `next` first counts itself in
      `index`, then yields the element at that position or throws. */
  class SlotIterator<T> {
    const slots: seq<Elem<T>>
    var index: nat

    constructor (slots: seq<Elem<T>>)
      ensures this.slots == slots && index == 0
      ensures Remaining() == slots
    {
      this.slots := slots;
      index := 0;
    }

    /** The iterator of an affix: its elements in field order. */
    static method OfAffix(affix: Affix<T>) returns (it: SlotIterator<T>)
      ensures fresh(it) && it.Remaining() == Slots(affix)
    {
      it := new SlotIterator(Slots(affix));
    }

    /** The iterator of a node: its two or three elements in order. */
    static method OfNode(node: Elem<T>) returns (it: SlotIterator<T>)
      requires !node.Leaf?
      ensures fresh(it) && it.Remaining() == Children(node)
    {
      it := new SlotIterator(Children(node));
    }

    /** What the iterator has still to yield. */
    ghost function Remaining(): seq<Elem<T>>
      reads this
    {
      if index < |slots| then slots[index..] else []
    }

    /** `hasNext`: some element is left. */
    function HasNext(): (b: bool)
      reads this
      ensures b <==> Remaining() != []
    {
      index < |slots|
    }

    /** `next`: the next element, or `NoSuchElementException` past the end. */
    method Next() returns (r: Result<Elem<T>>)
      modifies this
      ensures index == old(index) + 1
      ensures old(Remaining()) == [] ==> r == Err(NO_SUCH_ELEMENT) && Remaining() == []
      ensures old(Remaining()) != [] ==> r == Ok(old(Remaining())[0]) && Remaining() == old(Remaining())[1..]
    {
      index := index + 1;
      if index <= |slots| {
        r := Ok(slots[index - 1]);
      } else {
        r := Err(NO_SUCH_ELEMENT);
      }
    }
  }

  /** `Deep.DeepIterator`: the prefix's iterator, then, node by node, the
      iterators of the nodes the deeper tree's iterator yields, then the
      suffix's iterator; `current` is the field `iterator`. The deeper
      tree's iterator is represented by the sequence of nodes it has still to
      yield. */
  class DeepIterator<T> {
    const tree: Tree<T>
    var nodes: seq<Elem<T>>
    var current: SlotIterator<T>
    var iteratingThroughSuffix: bool

    ghost predicate Valid()
      reads this, current
    {
      && tree.Deep?
      && (forall k | 0 <= k < |nodes| :: !nodes[k].Leaf?)
      && (current.Remaining() == [] ==> iteratingThroughSuffix)
      && (iteratingThroughSuffix ==> nodes == [])
    }

    /** What the iterator has still to yield. */
    ghost function Remaining(): seq<Elem<T>>
      requires Valid()
      reads this, current
    {
      current.Remaining() + if iteratingThroughSuffix then [] else Unwrap(nodes) + Slots(tree.suffix)
    }

    constructor (tree: Tree<T>, ghost n: nat)
      requires tree.Deep? && Well(tree, n)
      ensures Valid() && fresh(current)
      ensures Remaining() == ElemsOf(tree, n)
    {
      this.tree := tree;
      var inner := ElemsOf(tree.deeper, n + 1);
      UnwrapLevel(inner, n);
      nodes := inner;
      current := new SlotIterator(Slots(tree.prefix));
      iteratingThroughSuffix := false;
    }

    /** `hasNext`: the current iterator has an element left. */
    function HasNext(): (b: bool)
      requires Valid()
      reads this, current
      ensures b <==> Remaining() != []
    {
      current.HasNext()
    }

    /** `next`: the next element in iteration order, or
        `NoSuchElementException` when none is left. */
    method Next() returns (r: Result<Elem<T>>)
      requires Valid()
      modifies this, current
      ensures Valid() && (current == old(current) || fresh(current))
      ensures old(Remaining()) == [] ==> r == Err(NO_SUCH_ELEMENT) && Remaining() == []
      ensures old(Remaining()) != [] ==> r == Ok(old(Remaining())[0]) && Remaining() == old(Remaining())[1..]
    {
      if !current.HasNext() {
        return Err(NO_SUCH_ELEMENT);
      }
      ghost var rest := if iteratingThroughSuffix then [] else Unwrap(nodes) + Slots(tree.suffix);
      assert old(Remaining()) == current.Remaining() + rest;
      r := current.Next();
      assert old(Remaining())[1..] == current.Remaining() + rest;
      if !current.HasNext() && !iteratingThroughSuffix {
        Advance();
      }
    }

    /** The switch `next` makes once the current iterator is exhausted: to
        the next node's iterator, or to the suffix's. */
    method Advance()
      requires tree.Deep? && (forall k | 0 <= k < |nodes| :: !nodes[k].Leaf?)
      requires current.Remaining() == [] && !iteratingThroughSuffix
      modifies this
      ensures Valid() && fresh(current)
      ensures Remaining() == old(Unwrap(nodes) + Slots(tree.suffix))
    {
      if nodes != [] {
        ghost var first, others := Children(nodes[0]), Unwrap(nodes[1..]);
        assert Unwrap(nodes) == first + others;
        current := SlotIterator.OfNode(nodes[0]);
        nodes := nodes[1..];
        assert Remaining() == first + (others + Slots(tree.suffix));
      } else {
        current := SlotIterator.OfAffix(tree.suffix);
        iteratingThroughSuffix := true;
        assert Remaining() == Slots(tree.suffix) + [];
      }
    }
  }
}
