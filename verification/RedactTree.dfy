/** The same two operations as the firmware does them: string nodes of a tree
    rewritten in place. */
module RedactTree {
  import opened Wrappers
  import opened Redact

  datatype Kind = NullNode | BoolNode(on: bool) | NumNode(value: real) | StrNode | ArrNode | ObjNode

  /** A node: only the text of a string node is ever rewritten. */
  class Node {
    const key: Option<string>
    const kind: Kind
    const children: seq<Node>
    var text: string
    ghost const height: nat
    ghost const repr: set<Node>

    /** A node over trees that share nothing. */
    constructor (key: Option<string>, kind: Kind, text: string, children: seq<Node>)
      requires forall i :: 0 <= i < |children| ==> children[i].Valid() && (kind.ObjNode? ==> children[i].key.Some?)
      requires forall i, j :: 0 <= i < j < |children| ==> children[i].repr !! children[j].repr
      ensures Valid() && this.key == key && this.kind == kind && this.text == text && this.children == children
    {
      this.key, this.kind, this.text, this.children := key, kind, text, children;
      height := Tallest(children) + 1;
      repr := {this} + Union(children);
      new;
      forall i | 0 <= i < |children|
        ensures children[i].height < height && children[i].repr < repr && this !in children[i].repr
      {
        InUnion(children, i);
      }
    }

    /** A tree: no node is shared between two children. */
    ghost predicate Valid()
      decreases height
    {
      && this in repr
      && (forall i :: 0 <= i < |children| ==>
            children[i].height < height && children[i].repr < repr && this !in children[i].repr && children[i].Valid()
            && (kind.ObjNode? ==> children[i].key.Some?))
      && (forall i, j :: 0 <= i < j < |children| ==> children[i].repr !! children[j].repr)
    }

    ghost function Tree(): Json
      requires Valid()
      reads repr
      decreases height, 0
    {
      match kind
      case NullNode => Null
      case BoolNode(on) => Bool(on)
      case NumNode(value) => Num(value)
      case StrNode => Str(text)
      case ArrNode => Arr(seq(|children|, i requires 0 <= i < |children| reads repr => children[i].Tree()))
      case ObjNode => Obj(seq(|children|, i requires 0 <= i < |children| reads repr => children[i].AsMember()))
    }

    ghost function AsMember(): Member
      requires Valid() && key.Some?
      reads repr
      decreases height, 1
    {
      Member(key.value, Tree())
    }
  }

  ghost function Tallest(ns: seq<Node>): nat {
    if ns == [] then 0 else if ns[0].height > Tallest(ns[1..]) then ns[0].height else Tallest(ns[1..])
  }

  ghost function Union(ns: seq<Node>): set<Node> {
    if ns == [] then {} else ns[0].repr + Union(ns[1..])
  }

  lemma {:induction false} InUnion(ns: seq<Node>, i: nat)
    requires i < |ns|
    ensures ns[i].height <= Tallest(ns) && ns[i].repr <= Union(ns)
  {
    if i > 0 {
      InUnion(ns[1..], i - 1);
    }
  }

  /** A missing node reads as nothing. */
  ghost function TreeOf(n: Node?): Json
    requires n != null ==> n.Valid()
    reads if n != null then n.repr else {}
  {
    if n == null then Null else n.Tree()
  }

  // ---- redaction ------------------------------------------------------------------------

  method RedactChild(c: Node)
    requires c.Valid() && c.key.Some?
    modifies c.repr
    ensures c.AsMember() == RedactMember(old(c.AsMember()))
    decreases c.height, 1
  {
    if c.kind.StrNode? && Secret(c.key.value) {
      c.text := "";
    } else if c.kind.ArrNode? {
      ghost var was := c.Tree().items;
      var i := 0;
      while i < |c.children|
        invariant i <= |c.children|
        invariant forall k :: 0 <= k < i ==> c.children[k].Tree() == RedactElement(was[k])
        invariant forall k :: i <= k < |c.children| ==> c.children[k].Tree() == was[k]
      {
        if c.children[i].kind.ObjNode? {
          RedactNode(c.children[i]);
        }
        i := i + 1;
      }
      assert c.Tree().items == RedactMember(old(c.AsMember())).value.items;
    }
  }

  /** Every secret of the object blanked, and of the objects in its arrays. */
  method RedactNode(obj: Node)
    requires obj.Valid() && obj.kind.ObjNode?
    modifies obj.repr
    ensures obj.Tree() == RedactElement(old(obj.Tree()))
    decreases obj.height, 0
  {
    ghost var was := obj.Tree().members;
    var i := 0;
    while i < |obj.children|
      invariant i <= |obj.children|
      invariant forall k :: 0 <= k < i ==> obj.children[k].AsMember() == RedactMember(was[k])
      invariant forall k :: i <= k < |obj.children| ==> obj.children[k].AsMember() == was[k]
    {
      RedactChild(obj.children[i]);
      i := i + 1;
    }
    assert obj.Tree().members == RedactElement(old(obj.Tree())).members;
  }

  // ---- restoration ------------------------------------------------------------------------

  /** The first child of that key. */
  method GetObjectItem(obj: Node?, key: string) returns (r: Node?)
    requires obj != null ==> obj.Valid()
    ensures r == null <==> GetItem(TreeOf(obj), key).None?
    ensures r != null ==> obj != null && r.Valid() && r.repr <= obj.repr && GetItem(TreeOf(obj), key) == Some(r.Tree())
  {
    if obj == null || !obj.kind.ObjNode? {
      return null;
    }
    ghost var ms := obj.Tree().members;
    var i := 0;
    while i < |obj.children|
      invariant i <= |obj.children| && Get(ms[i..], key) == Get(ms, key)
    {
      assert ms[i..][0] == obj.children[i].AsMember() && ms[i..][1..] == ms[i + 1..];
      if obj.children[i].key.value == key {
        return obj.children[i];
      }
      i := i + 1;
    }
    r := null;
  }

  method RowName(el: Node) returns (name: Option<string>)
    requires el.Valid()
    ensures name == NameOf(el.Tree())
  {
    var n := GetObjectItem(el, NAME);
    name := if n != null && n.kind.StrNode? then Some(n.text) else None;
  }

  method StoredRow(stored: Node, el: Node, idx: nat) returns (r: Node?)
    requires stored.Valid() && stored.kind.ArrNode? && el.Valid()
    ensures r == null <==> StoredElement(stored.Tree().items, el.Tree(), idx).None?
    ensures r != null ==> r.Valid() && r.repr <= stored.repr
                          && StoredElement(stored.Tree().items, el.Tree(), idx) == Some(r.Tree())
  {
    hide NameOf;
    var name := RowName(el);
    ghost var rows := stored.Tree().items;
    if name.Some? {
      var i := 0;
      while i < |stored.children|
        invariant i <= |stored.children| && Named(rows[i..], name.value) == Named(rows, name.value)
      {
        var cand := stored.children[i];
        assert rows[i..][0] == cand.Tree() && rows[i..][1..] == rows[i + 1..];
        var n := RowName(cand);
        if cand.kind.ObjNode? && n == name {
          return cand;
        }
        i := i + 1;
      }
      return null;
    }
    if idx < |stored.children| && stored.children[idx].kind.ObjNode? {
      return stored.children[idx];
    }
    r := null;
  }

  method UnredactChild(c: Node, stored: Node?)
    requires c.Valid() && c.key.Some?
    requires stored != null ==> stored.Valid() && stored.repr !! c.repr
    modifies c.repr
    ensures c.AsMember() == UnredactMember(old(c.AsMember()), old(TreeOf(stored)))
    decreases c.height, 1
  {
    if c.kind.ArrNode? {
      var storedArr := GetObjectItem(stored, c.key.value);
      if storedArr != null && storedArr.kind.ArrNode? {
        UnredactRows(c, storedArr);
      }
      return;
    }
    if !c.kind.StrNode? || !Secret(c.key.value) || c.text != "" {
      return;
    }
    var kept := GetObjectItem(stored, c.key.value);
    if kept != null && kept.kind.StrNode? {
      c.text := kept.text;
    }
  }

  method UnredactRows(c: Node, stored: Node)
    requires c.Valid() && c.kind.ArrNode? && stored.Valid() && stored.kind.ArrNode? && stored.repr !! c.repr
    modifies c.repr
    ensures var items, rows := old(c.Tree()).items, old(stored.Tree()).items;
      c.Tree() == Arr(seq(|items|, i requires 0 <= i < |items| => UnredactRow(items[i], rows, i)))
    decreases c.height, 0
  {
    hide StoredElement;
    ghost var was, rows := c.Tree().items, stored.Tree().items;
    var i := 0;
    while i < |c.children|
      invariant i <= |c.children| && stored.Tree().items == rows
      invariant forall k :: 0 <= k < i ==> c.children[k].Tree() == UnredactRow(was[k], rows, k)
      invariant forall k :: i <= k < |c.children| ==> c.children[k].Tree() == was[k]
    {
      var el := c.children[i];
      if el.kind.ObjNode? {
        var row := StoredRow(stored, el, i);
        if row != null {
          UnredactNode(el, row);
        }
      }
      i := i + 1;
    }
    assert c.Tree().items == seq(|was|, i requires 0 <= i < |was| => UnredactRow(was[i], rows, i));
  }

  /** Blank secrets filled in from the stored object. */
  method UnredactNode(el: Node, stored: Node?)
    requires el.Valid() && el.kind.ObjNode?
    requires stored != null ==> stored.Valid() && stored.repr !! el.repr
    modifies el.repr
    ensures el.Tree() == UnredactElement(old(el.Tree()), old(TreeOf(stored)))
    decreases el.height, 0
  {
    ghost var was, kept := el.Tree().members, TreeOf(stored);
    var i := 0;
    while i < |el.children|
      invariant i <= |el.children| && TreeOf(stored) == kept
      invariant forall k :: 0 <= k < i ==> el.children[k].AsMember() == UnredactMember(was[k], kept)
      invariant forall k :: i <= k < |el.children| ==> el.children[k].AsMember() == was[k]
    {
      UnredactChild(el.children[i], stored);
      i := i + 1;
    }
    assert el.Tree().members == UnredactElement(old(el.Tree()), kept).members;
  }
}
