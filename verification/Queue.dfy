/** The queue of buffers, a singly linked list that runs through the buffers themselves. */
module Queue {
  import opened SendSpec

  lemma SomeHold(s: seq<Mem>)
    ensures exists t :: Hold(s, t)
  {
    if s == [] {
      assert Hold(s, []);
    } else {
      SomeHold(s[..|s| - 1]);
      var t :| Hold(s[..|s| - 1], t);
      assert Hold(s, t + [s[|s| - 1].body]);
    }
  }

  /** What the buffers hold. */
  ghost function Vals(s: seq<Mem>): (t: seq<Buf>)
    reads s`body
    ensures Hold(s, t)
  {
    SomeHold(s);
    var t :| Hold(s, t);
    t
  }

  /** What is looked for: any buffer, or the one with a sequence number. */
  datatype Search = Any | WithSeq(u8Seq: nat)

  predicate Hit(search: Search, b: Buf) {
    search == Any || b.u8Seq == search.u8Seq
  }

  /** `i` is the first place of a buffer that is looked for. */
  ghost predicate FirstHit(search: Search, s: seq<Buf>, i: nat) {
    i < |s| && Hit(search, s[i]) && forall j | 0 <= j < i :: !Hit(search, s[j])
  }

  ghost predicate NoHit(search: Search, s: seq<Buf>) {
    forall j: nat | j < |s| :: !Hit(search, s[j])
  }

  lemma AnyHits(s: seq<Buf>, i: nat)
    requires s != []
    ensures !NoHit(Any, s) && (FirstHit(Any, s, i) ==> i == 0)
  {
    assert Hit(Any, s[0]);
  }

  predicate At(i: nat) {
    true
  }

  ghost function CutAt(s: seq<Mem>, i: nat): (t: seq<Mem>)
    requires i < |s|
    ensures t == s[..i] + s[i + 1..] && |t| == |s| - 1
    ensures forall j: nat {:trigger t[j]} | j < |t| :: t[j] == s[if j < i then j else j + 1]
  {
    s[..i] + s[i + 1..]
  }

  lemma ValsAppend(s: seq<Mem>, m: Mem)
    ensures Vals(s + [m]) == Vals(s) + [m.body]
  {
  }

  lemma ValsCut(s: seq<Mem>, i: nat)
    requires i < |s|
    ensures Vals(CutAt(s, i)) == Without(Vals(s), i)
  {
  }

  ghost function Members(s: seq<Mem>): set<Mem> {
    set m | m in s
  }

  lemma MemberAt(s: seq<Mem>, i: nat)
    requires i < |s|
    ensures s[i] in Members(s)
  {
  }

  ghost predicate Different(s: seq<Mem>) {
    forall i, j | 0 <= i < j < |s| :: s[i] != s[j]
  }

  lemma AppendedMembers(s: seq<Mem>, b: Mem)
    requires Different(s) && b !in s
    ensures Members(s + [b]) == Members(s) + {b} && Different(s + [b])
  {
  }

  lemma CutMembers(s: seq<Mem>, i: nat)
    requires i < |s| && Different(s)
    ensures Members(CutAt(s, i)) == Members(s) - {s[i]} && Different(CutAt(s, i))
  {
    forall m | m in s && m != s[i]
      ensures m in CutAt(s, i)
    {
      var j: nat :| j < |s| && s[j] == m;
      assert CutAt(s, i)[if j < i then j else j - 1] == m;
    }
  }

  /** The buffer after place `i`. */
  ghost function AfterOf(s: seq<Mem>, i: nat): Mem?
  {
    if i + 1 < |s| then s[i + 1] else null
  }

  class Queue {
    var pHead: Mem?
    var pTail: Mem?
    var u8Size: nat
    /** The buffers in the queue in order. */
    ghost var nodes: seq<Mem>
    /** The same as a set. */
    ghost var repr: set<Mem>

    ghost predicate Valid()
      reads this, repr`pNext, repr`owner
    {
      && u8Size == |nodes| < 256
      && (nodes != [] ==> pHead == nodes[0] && pTail == nodes[|nodes| - 1])
      && (forall m {:trigger m in repr} | m in repr :: m.owner == this)
      && forall i: nat {:trigger At(i)} | At(i) ::
           repr == Members(nodes) && Different(nodes) && (i < |nodes| ==> nodes[i].pNext == AfterOf(nodes, i))
    }

    constructor ()
      ensures Valid() && nodes == [] && repr == {}
    {
      pHead, pTail, u8Size, nodes, repr := null, null, 0, [], {};
    }

    ghost function V(): (t: seq<Buf>)
      reads this, nodes`body
      ensures |t| == |nodes|
    {
      Vals(nodes)
    }

    /** Makes it the last one of the list. */
    method Link(buf: Mem, ghost s: seq<Mem>)
      requires Valid() && s == nodes + [buf] && Different(s)
      modifies this`pHead, this`pTail, this`u8Size, buf`pNext, buf`owner, repr`pNext
      ensures u8Size == |s| % 256 && buf.owner == this && buf.pNext == null && pHead == s[0] && pTail == buf
      ensures forall i: nat {:trigger At(i)} | i < |s| && At(i) :: s[i].pNext == AfterOf(s, i)
    {
      if u8Size == 0 {
        pHead := buf;
      } else {
        assert pTail in repr by {
          assert At(0);
          MemberAt(nodes, u8Size - 1);
        }
        pTail.pNext := buf;
      }
      pTail := buf;
      buf.pNext := null;
      buf.owner := this;
      u8Size := (u8Size + 1) % 256;
      forall i: nat | i < |s| && At(i)
        ensures s[i].pNext == AfterOf(s, i)
      {
        if i + 2 < |s| {
          assert s[i] == old(nodes)[i] != s[|s| - 2] && s[|s| - 1] == buf;
          assert old(nodes[i].pNext == AfterOf(nodes, i));
        }
      }
    }

    /** Appends a buffer. The size is counted in a byte: with the 256th buffer the queue looks empty, and loses all. */
    method Append(buf: Mem)
      requires Valid() && buf.owner == null
      modifies this, buf`pNext, buf`owner, repr`pNext
      ensures Valid() && buf.pNext == null
      ensures V() == if |old(nodes)| == 255 then [] else old(V()) + [buf.body]
      ensures nodes == if |old(nodes)| == 255 then [] else old(nodes) + [buf]
      ensures repr == if |old(nodes)| == 255 then {} else old(repr) + {buf}
    {
      ghost var s := nodes + [buf];
      assert Different(s) && Members(s) == repr + {buf} by {
        assert At(0);
        assert buf in nodes ==> buf in Members(nodes);
        AppendedMembers(nodes, buf);
      }
      Link(buf, s);
      ValsAppend(nodes, buf);
      nodes := if u8Size == 0 then [] else s;
      repr := if u8Size == 0 then {} else repr + {buf};
    }

    /** Leads the links past it. */
    method Relink(cur: Mem, prev: Mem?, ghost i: nat, ghost s: seq<Mem>)
      requires Valid() && i < |nodes| && cur == nodes[i] && prev == if i == 0 then pHead else nodes[i - 1]
      requires s == CutAt(nodes, i)
      modifies this`pHead, this`pTail, this`u8Size, repr`pNext
      ensures u8Size == |s| && (s != [] ==> pHead == s[0] && pTail == s[|s| - 1]) && cur.pNext == old(cur.pNext)
      ensures forall j: nat {:trigger At(j)} | j < |s| && At(j) :: s[j].pNext == AfterOf(s, j)
    {
      assert At(i);
      if i > 0 { MemberAt(nodes, i - 1); }
      if cur == pHead {
        pHead := cur.pNext;
      } else {
        prev.pNext := cur.pNext;
      }
      if cur == pTail { pTail := prev; }
      u8Size := u8Size - 1;
      if pHead == null { pTail := null; }
      forall j: nat | j < |s| && At(j)
        ensures s[j].pNext == AfterOf(s, j)
      {
        assert At(j + 1);
      }
    }

    /** Takes out the buffer at place `i`. */
    method Unlink(cur: Mem, prev: Mem?, ghost i: nat)
      requires Valid() && i < |nodes| && cur == nodes[i] && cur in repr && prev == if i == 0 then pHead
               else nodes[i - 1]
      modifies this, repr`pNext, cur`owner
      ensures Valid() && nodes == CutAt(old(nodes), i) && cur.pNext == old(cur.pNext)
      ensures repr == old(repr) - {cur} && cur.owner == null
    {
      ghost var s := CutAt(nodes, i);
      assert Members(s) == repr - {cur} && Different(s) by {
        assert At(0);
        CutMembers(nodes, i);
      }
      Relink(cur, prev, i, s);
      cur.owner := null;
      nodes := s;
      repr := repr - {cur};
    }

    /** Takes out the first buffer that is looked for. Its link still leads to the one after it. */
    method Remove(search: Search) returns (r: Mem?, ghost i: nat)
      requires Valid()
      modifies this, repr`pNext, repr`owner
      ensures Valid()
      ensures r == null ==> nodes == old(nodes) && repr == old(repr) && V() == old(V()) && NoHit(search, V())
      ensures r != null ==> FirstHit(search, old(V()), i) && V() == Without(old(V()), i) && r.body == old(V())[i]
      ensures r != null ==> r == old(nodes)[i] && nodes == CutAt(old(nodes), i)
      ensures r != null ==> repr == old(repr) - {r} && r in old(repr) && r.pNext == old(r.pNext) && r.owner == null
    {
      r, i := null, 0;
      if u8Size == 0 { return; }
      var cur, prev := pHead, pHead;
      if search != Any {
        while cur != null
          invariant i <= |nodes| && cur == (if i < |nodes| then nodes[i] else null)
          invariant prev == if i == 0 then pHead else nodes[i - 1]
          invariant forall j | 0 <= j < i :: !Hit(search, nodes[j].body)
          decreases |nodes| - i
        {
          if Hit(search, cur.body) { break; }
          assert At(i);
          prev := cur;
          cur := cur.pNext;
          i := i + 1;
        }
      }
      if cur == null { return; }
      assert FirstHit(search, Vals(nodes), i);
      assert cur in repr by {
        assert At(0);
        MemberAt(nodes, i);
      }
      ghost var was := nodes;
      Unlink(cur, prev, i);
      ValsCut(was, i);
      r := cur;
    }

    /** Takes out the first buffer. */
    method Pop() returns (r: Mem?)
      requires Valid()
      modifies this, repr`pNext, repr`owner
      ensures Valid()
      ensures if old(nodes) == [] then r == null && nodes == [] && repr == old(repr)
              else r == old(nodes)[0] && nodes == old(nodes)[1..] && repr == old(repr) - {r} && r in old(repr)
                   && r.owner == null && V() == old(V())[1..] && r.body == old(V())[0]
    {
      ghost var s, v, i := nodes, V(), 0;
      r, i := Remove(Any);
      if s != [] {
        AnyHits(v, i);
        assert CutAt(s, 0) == s[1..] && Without(v, 0) == v[1..];
      }
    }

    /** Takes out the buffers and frees each of them once, in order. */
    method Flush() returns (ghost freed: seq<Mem>)
      requires Valid()
      modifies this, repr`pNext, repr`owner
      ensures Valid() && nodes == [] && freed == old(nodes)
    {
      freed := [];
      while u8Size > 0
        invariant Valid() && repr <= old(repr) && |freed| <= |old(nodes)| && nodes == old(nodes)[|freed|..]
                  && freed == old(nodes)[..|freed|]
        decreases |nodes|
      {
        var m := Pop();
        freed := freed + [m];
      }
    }

    /** The first buffer, left in place. */
    method Peek() returns (r: Mem?)
      requires Valid()
      ensures r == if nodes == [] then null else nodes[0]
    {
      r := if u8Size != 0 then pHead else null;
    }
  }

  /** A buffer: its link to the next one in a queue, and what it holds. */
  class Mem {
    var pNext: Mem?
    var body: Buf
    /** The queue it is in. */
    ghost var owner: Queue?

    constructor (body: Buf)
      ensures pNext == null && owner == null && this.body == body
    {
      pNext, owner, this.body := null, null, body;
    }
  }

  ghost predicate Hold(s: seq<Mem>, t: seq<Buf>)
    reads s`body
  {
    |t| == |s| && forall i: nat {:trigger t[i]} | i < |s| :: t[i] == s[i].body
  }
}
