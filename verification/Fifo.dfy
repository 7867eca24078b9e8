/** The byte queue between the serial port and the frame parser. */
module Fifo {

  /** The place `i` places after `p`, of `n`. */
  function Place(n: nat, p: nat, i: nat): nat {
    if p + i < n then p + i else p + i - n
  }

  /** The bytes from place `p` of the buffer `a` on are `s`. */
  ghost predicate Holds(a: seq<bv8>, p: nat, s: seq<bv8>) {
    p < |a| && |s| <= |a| && forall i: nat {:trigger s[i]} | i < |s| :: a[Place(|a|, p, i)] == s[i]
  }

  ghost function Window(a: seq<bv8>, p: nat, n: nat): (s: seq<bv8>)
    requires p < |a| && n <= |a|
    ensures |s| == n
  {
    assert Holds(a, p, seq(n, i requires 0 <= i < n => a[Place(|a|, p, i)]));
    var s :| |s| == n && Holds(a, p, s);
    s
  }

  lemma WindowIs(a: seq<bv8>, p: nat, s: seq<bv8>)
    requires Holds(a, p, s)
    ensures Window(a, p, |s|) == s
  {
    var r := Window(a, p, |s|);
    assert forall i: nat | i < |s| :: r[i] == s[i];
  }

  /** A byte behind `s`. */
  lemma Behind(a: seq<bv8>, p: nat, s: seq<bv8>, t: nat, b: bv8)
    requires Holds(a, p, s) && |s| < |a| && t == Place(|a|, p, |s|)
    ensures t < |a| && Holds(a[t := b], p, s + [b])
  {
  }

  /** A byte elsewhere. */
  lemma Elsewhere(a: seq<bv8>, p: nat, s: seq<bv8>, k: nat, b: bv8)
    requires Holds(a, p, s) && |s| <= k < |a|
    ensures var t := Place(|a|, p, k); t < |a| && Holds(a[t := b], p, s)
  {
  }

  /** The first byte of a window and the rest. */
  lemma Split(a: seq<bv8>, p: nat, s: seq<bv8>)
    requires Holds(a, p, s) && s != []
    ensures s[0] == a[p] && Holds(a, Place(|a|, p, 1), s[1..])
  {
    forall i: nat | i < |s| - 1
      ensures a[Place(|a|, Place(|a|, p, 1), i)] == s[1..][i]
    {
      assert s[1..][i] == s[i + 1];
    }
  }

  /** A window one place further back. */
  lemma Front(a: seq<bv8>, p: nat, s: seq<bv8>)
    requires p < |a| && |s| < |a| && Holds(a, Place(|a|, p, 1), s)
    ensures Holds(a, p, [a[p]] + s)
  {
    forall i: nat | i <= |s|
      ensures a[Place(|a|, p, i)] == ([a[p]] + s)[i]
    {
      if i > 0 { assert ([a[p]] + s)[i] == s[i - 1]; }
    }
  }

  /** The last byte of `p` is put to the front of `s`. */
  lemma PutBack(p: seq<bv8>, s: seq<bv8>)
    requires p != []
    ensures p[..|p| - 1] + ([p[|p| - 1]] + s) == p + s
  {
  }

  class Fifo {
    const arrBuff: array<bv8>
    var u16Size: nat
    var u16Head: nat
    var u16Tail: nat
    var bEnProtect: bool
    var u16ProtectPtr: nat
    /** The bytes taken out since protection was enabled. */
    ghost var past: seq<bv8>
    /** None of them has been overwritten. */
    ghost var intact: bool

    function Capacity(): nat
    {
      arrBuff.Length
    }

    ghost predicate Valid()
      reads this, arrBuff
    {
      && 0 < arrBuff.Length && u16Size <= arrBuff.Length && u16Head < arrBuff.Length
      && u16Tail == Place(arrBuff.Length, u16Head, u16Size)
      && u16ProtectPtr < arrBuff.Length
      && (bEnProtect && intact ==>
            && |past| + u16Size <= arrBuff.Length && u16Head == Place(arrBuff.Length, u16ProtectPtr, |past|)
            && Holds(arrBuff[..], u16ProtectPtr, past))
    }

    /** The bytes in the queue, the oldest one first. */
    ghost function Contents(): (s: seq<bv8>)
      requires Valid()
      reads this, arrBuff
      ensures |s| == u16Size && Holds(arrBuff[..], u16Head, s)
    {
      Window(arrBuff[..], u16Head, u16Size)
    }

    constructor (u16Size: nat)
      requires 0 < u16Size
      ensures Valid() && Contents() == [] && !bEnProtect && fresh(arrBuff) && Capacity() == u16Size
    {
      arrBuff := new bv8[u16Size](i => 0);
      this.u16Size, u16Head, u16Tail, bEnProtect, u16ProtectPtr := 0, 0, 0, false, 0;
      past, intact := [], true;
    }

    method Push(b: bv8) returns (ok: bool)
      requires Valid()
      modifies this`u16Size, this`u16Tail, this`intact, arrBuff
      ensures Valid() && ok == (old(u16Size) < Capacity())
      ensures Contents() == if ok then old(Contents()) + [b] else old(Contents())
      ensures intact == (old(intact) && !(ok && bEnProtect && |past| + old(u16Size) == Capacity()))
    {
      if u16Size >= arrBuff.Length { return false; }
      ghost var a, s := arrBuff[..], Contents();
      Behind(a, u16Head, s, u16Tail, b);
      if bEnProtect && intact && |past| + u16Size < arrBuff.Length {
        Elsewhere(a, u16ProtectPtr, past, |past| + u16Size, b);
      }
      intact := intact && !(bEnProtect && |past| + u16Size == arrBuff.Length);
      arrBuff[u16Tail] := b;
      assert arrBuff[..] == a[u16Tail := b];
      WindowIs(arrBuff[..], u16Head, s + [b]);
      u16Tail := u16Tail + 1;
      if u16Tail >= arrBuff.Length { u16Tail := 0; }
      u16Size := u16Size + 1;
      return true;
    }

    method Pop() returns (ok: bool, b: bv8)
      requires Valid()
      modifies this`u16Size, this`u16Head, this`past
      ensures Valid() && ok == (old(u16Size) > 0)
      ensures ok ==> old(Contents()) == [b] + Contents() && past == old(past) + [b]
      ensures !ok ==> Contents() == old(Contents()) && past == old(past) && b == 0xFF
    {
      if u16Size == 0 { return false, 0xFF; }
      ghost var s := Contents();
      Split(arrBuff[..], u16Head, s);
      if bEnProtect && intact {
        Behind(arrBuff[..], u16ProtectPtr, past, u16Head, arrBuff[u16Head]);
        assert arrBuff[..][u16Head := arrBuff[u16Head]] == arrBuff[..];
      }
      b := arrBuff[u16Head];
      u16Head := u16Head + 1;
      if u16Head >= arrBuff.Length { u16Head := 0; }
      u16Size := u16Size - 1;
      past := past + [b];
      WindowIs(arrBuff[..], u16Head, s[1..]);
      assert s == [b] + s[1..];
      return true, b;
    }

    method EnableProtect()
      requires Valid()
      modifies this`bEnProtect, this`u16ProtectPtr, this`past, this`intact
      ensures Valid() && bEnProtect && intact && past == [] && Contents() == old(Contents())
    {
      bEnProtect := true;
      u16ProtectPtr := u16Head;
      past, intact := [], true;
    }

    method DisableProtect()
      requires Valid()
      modifies this`bEnProtect
      ensures Valid() && !bEnProtect && Contents() == old(Contents())
    {
      bEnProtect := false;
    }

    /** Puts back one byte. */
    method StepBack()
      requires Valid() && bEnProtect && intact && u16Head != u16ProtectPtr
      modifies this`u16Size, this`u16Head, this`past
      ensures Valid() && |past| == |old(past)| - 1 && past + Contents() == old(past + Contents())
      ensures u16Head == u16Tail ==> past == []
    {
      ghost var s := Contents();
      ghost var k := |past| - 1;
      if u16Head == 0 {
        u16Head := arrBuff.Length - 1;
      } else {
        u16Head := u16Head - 1;
      }
      ghost var b := arrBuff[u16Head];
      Front(arrBuff[..], u16Head, s);
      WindowIs(arrBuff[..], u16Head, [b] + s);
      u16Size := u16Size + 1;
      PutBack(past, s);
      past := past[..k];
    }

    /** The loop of `RewindHead`. */
    method RewindLoop()
      requires Valid() && bEnProtect && intact
      modifies this`u16Size, this`u16Head, this`past
      ensures Valid()
      ensures Contents() == if |old(past)| < Capacity() then old(past) + old(Contents()) else old(Contents())
    {
      ghost var was, now := past, Contents();
      while u16Head != u16ProtectPtr
        invariant Valid() && past + Contents() == was + now
        invariant |was| == Capacity() ==> past == was && Contents() == now
        decreases |past|
      {
        StepBack();
        if u16Head == u16Tail { break; }
      }
      assert |was| < Capacity() ==> past == [] && past + Contents() == Contents();
    }

    /** Puts back the bytes taken out since protection was enabled, unless so many have been taken out that the head is
        at the protected position again: then it puts back nothing. */
    method RewindHead()
      requires Valid() && (bEnProtect ==> intact)
      modifies this`u16Size, this`u16Head, this`past
      ensures Valid()
      ensures Contents() == if bEnProtect && |old(past)| < Capacity() then old(past) + old(Contents())
              else old(Contents())
    {
      if bEnProtect { RewindLoop(); }
    }

    /** Whether a byte can be pushed without overwriting a protected one, as far as this is noticed. */
    predicate IsEnablePush()
      reads this
    {
      !(u16Size == arrBuff.Length || (bEnProtect && u16Size != 0 && u16Tail == u16ProtectPtr))
    }

    /** That is so unless the queue is empty and all of its places are protected. */
    lemma EnablePushExactly()
      requires Valid() && bEnProtect && intact
      ensures IsEnablePush() <==> u16Size == 0 || |past| + u16Size < Capacity()
    {
    }

    method Reset()
      requires Valid()
      modifies this`u16Size, this`u16Head, this`u16Tail, this`bEnProtect, this`u16ProtectPtr
      ensures Valid() && Contents() == [] && !bEnProtect
    {
      u16Size, u16Head, u16Tail, bEnProtect, u16ProtectPtr := 0, 0, 0, false, 0;
    }
  }

  /** A queue of one place that is protected after its byte has been taken out: a push is allowed, and rewinding puts
      nothing back. */
  method FullTurn(b: bv8) returns (f: Fifo, allowed: bool)
    ensures fresh(f) && f.Valid() && f.bEnProtect && f.Capacity() == 1
    ensures allowed && f.Contents() == []
  {
    f := new Fifo(1);
    var _ := f.Push(b);
    assert f.Contents() == [b];
    f.EnableProtect();
    var _, c := f.Pop();
    assert [b][0] == c;
    allowed := f.IsEnablePush();
    f.RewindHead();
    assert f.Contents() == [];
  }
}
