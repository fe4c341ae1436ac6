/** Orders of distinct layers and what `UpDown` and `Hide` do to them. */
module StackOrder {
  import opened Sequences

  /** The elements outside `moved`, in their order. */
  function Others<T(==)>(s: seq<T>, moved: set<T>): seq<T> {
    if s == [] then []
    else if s[0] in moved then Others(s[1..], moved)
    else [s[0]] + Others(s[1..], moved)
  }

  lemma {:induction false} OthersConcat<T>(a: seq<T>, b: seq<T>, moved: set<T>)
    ensures Others(a + b, moved) == Others(a, moved) + Others(b, moved)
  {
    if a == [] {
      assert a + b == b;
    } else {
      assert (a + b)[1..] == a[1..] + b;
      OthersConcat(a[1..], b, moved);
    }
  }

  lemma {:induction false} OthersMembers<T>(s: seq<T>, moved: set<T>, e: T)
    ensures e in Others(s, moved) <==> e in s && e !in moved
  {
    if s != [] {
      OthersMembers(s[1..], moved, e);
      assert s == [s[0]] + s[1..];
    }
  }

  lemma {:induction false} OthersNoDuplicates<T>(s: seq<T>, moved: set<T>)
    requires NoDuplicates(s)
    ensures NoDuplicates(Others(s, moved))
  {
    if s != [] {
      OthersNoDuplicates(s[1..], moved);
      OthersMembers(s[1..], moved, s[0]);
    }
  }

  lemma {:induction false} OthersOfNone<T>(s: seq<T>, moved: set<T>)
    requires forall i :: 0 <= i < |s| ==> s[i] !in moved
    ensures Others(s, moved) == s
  {
    if s != [] {
      OthersOfNone(s[1..], moved);
    }
  }

  lemma WithoutMembers<T>(s: seq<T>, k: nat)
    requires NoDuplicates(s) && k < |s|
    ensures s[k] !in Without(s, k)
    ensures forall x :: x in Without(s, k) ==> x in s
  {
    forall i | 0 <= i < |s| - 1
      ensures Without(s, k)[i] == s[if i < k then i else i + 1]
    {
    }
  }

  lemma OthersOne<T>(e: T, moved: set<T>)
    requires e in moved
    ensures Others([e], moved) == []
  {
    assert [e][1..] == [];
  }

  /** Erasing one of distinct elements leaves the others. */
  lemma OthersIsWithout<T>(s: seq<T>, k: nat)
    requires NoDuplicates(s) && k < |s|
    ensures Others(s, {s[k]}) == Without(s, k)
  {
    hide Others;
    var a, e, b := s[..k], s[k], s[k + 1..];
    assert s == (a + [e]) + b;
    OthersOfNone(a, {e});
    OthersOfNone(b, {e});
    OthersOne(e, {e});
    OthersConcat(a + [e], b, {e});
    OthersConcat(a, [e], {e});
    assert a + [] == a;
  }

  lemma {:induction false} OthersTwice<T>(s: seq<T>, some: set<T>, more: set<T>)
    requires some <= more
    ensures Others(Others(s, some), more) == Others(s, more)
  {
    if s != [] {
      OthersTwice(s[1..], some, more);
      if s[0] !in some {
        assert Others(s, some)[1..] == Others(s[1..], some);
      }
    }
  }

  /** `e` among the others, as high as asked for and possible. */
  function Raised<T(==)>(s: seq<T>, e: T, height: nat): (r: seq<T>) {
    var o := Others(s, {e});
    var k := if height < |o| then height else |o|;
    o[..k] + [e] + o[k..]
  }

  lemma InsertedNoDuplicates<T>(o: seq<T>, e: T, k: nat)
    requires NoDuplicates(o) && e !in o && k <= |o|
    ensures NoDuplicates(o[..k] + [e] + o[k..])
  {
    var r := o[..k] + [e] + o[k..];
    forall i, j | 0 <= i < j < |r|
      ensures r[i] != r[j]
    {
      assert i != k ==> r[i] == o[if i < k then i else i - 1];
      assert j != k ==> r[j] == o[if j < k then j else j - 1];
    }
  }

  lemma InsertedOthers<T>(o: seq<T>, e: T, k: nat, moved: set<T>)
    requires e in moved && k <= |o|
    ensures Others(o[..k] + [e] + o[k..], moved) == Others(o, moved)
  {
    hide Others;
    var a, b := o[..k], o[k..];
    OthersConcat(a + [e], b, moved);
    OthersConcat(a, [e], moved);
    OthersConcat(a, b, moved);
    OthersOne(e, moved);
    assert o == a + b;
    assert Others(a, moved) + [] == Others(a, moved);
  }

  /** What every call of `UpDown` keeps, and where it puts the layer. */
  lemma RaisedKeeps<T>(s: seq<T>, e: T, height: nat, moved: set<T>)
    requires NoDuplicates(s) && e in moved
    ensures
      var r := Raised(s, e, height);
      && NoDuplicates(r)
      && Others(r, moved) == Others(s, moved)
      && (var top := |r| - 1; r[if height < top then height else top] == e)
  {
    var o := Others(s, {e});
    var k := if height < |o| then height else |o|;
    OthersMembers(s, {e}, e);
    OthersNoDuplicates(s, {e});
    InsertedNoDuplicates(o, e, k);
    InsertedOthers(o, e, k, moved);
    OthersTwice(s, {e}, moved);
  }

  datatype StackOp<T> = UpDown(layer: T, height: int)

  function Step<T(==)>(s: seq<T>, op: StackOp<T>): seq<T> {
    if op.height < 0 then Others(s, {op.layer}) else Raised(s, op.layer, op.height)
  }

  /** A negative height takes the layer out; any other puts it at that height
      among the others, or on top. */
  lemma StepExact<T>(s: seq<T>, e: T, height: int) returns (o: seq<T>, h: nat)
    requires NoDuplicates(s)
    ensures h <= |s| && if h < |s| then s[h] == e && o == Without(s, h) else e !in s && o == s
    ensures Step(s, UpDown(e, height)) ==
      if height < 0 then o else if height < |o| then o[..height] + [e] + o[height..] else o + [e]
  {
    o := Others(s, {e});
    if e in s {
      h :| 0 <= h < |s| && s[h] == e;
      OthersIsWithout(s, h);
    } else {
      h := |s|;
      OthersOfNone(s, {e});
    }
    assert o[..|o|] + [e] + o[|o|..] == o + [e];
    hide Others;
  }

  lemma StepKeeps<T>(s: seq<T>, op: StackOp<T>)
    requires NoDuplicates(s)
    ensures NoDuplicates(Step(s, op))
    ensures forall x :: x in Step(s, op) ==> x == op.layer || x in s
  {
    if op.height < 0 {
      OthersNoDuplicates(s, {op.layer});
    } else {
      RaisedKeeps(s, op.layer, op.height, {op.layer});
    }
    forall x | x in Step(s, op)
      ensures x == op.layer || x in s
    {
      OthersMembers(s, {op.layer}, x);
    }
  }

  function Run<T(==)>(s: seq<T>, ops: seq<StackOp<T>>): seq<T>
    decreases |ops|
  {
    if ops == [] then s else Run(Step(s, ops[0]), ops[1..])
  }

  /** Over any run the stack stays duplicate-free and the layers no call names
      keep their relative order. */
  lemma {:induction false} RunKeeps<T>(s: seq<T>, ops: seq<StackOp<T>>, moved: set<T>)
    requires NoDuplicates(s) && forall op :: op in ops ==> op.layer in moved
    ensures NoDuplicates(Run(s, ops))
    ensures Others(Run(s, ops), moved) == Others(s, moved)
    decreases |ops|
  {
    if ops != [] {
      var op := ops[0];
      if op.height < 0 {
        OthersNoDuplicates(s, {op.layer});
        OthersTwice(s, {op.layer}, moved);
      } else {
        RaisedKeeps(s, op.layer, op.height, moved);
      }
      RunKeeps(Step(s, op), ops[1..], moved);
    }
  }

  /** The height `Activate` asks for is right under the top layer exactly for
      a layer that is shown already. */
  lemma ActivatedUnderTop<T>(s: seq<T>, e: T)
    requires NoDuplicates(s) && |s| >= 2 && e != s[|s| - 1]
    ensures
      var r := Step(s, UpDown(e, |s| - 2));
      && |r| >= 2 && r[|r| - 1] == s[|s| - 1]
      && (r[|r| - 2] == e <==> e in s)
  {
    var o, k := Others(s, {e}), |s| - 2;
    if e in s {
      var h :| 0 <= h < |s| && s[h] == e;
      OthersIsWithout(s, h);
      assert o[k] == s[|s| - 1];
    } else {
      OthersOfNone(s, {e});
      assert o[k] in s;
    }
    assert Step(s, UpDown(e, k)) == o[..k] + [e] + o[k..];
  }

  /** How many layers of the stack remain or stay below a layer that is put under
      the one at height m, counting itself if it was there. */
  function Under<T(==)>(s: seq<T>, e: T, m: nat): nat
    requires 1 <= m <= |s|
  {
    if e in s[..m] then m else m - 1
  }

  /** What a layer goes in between when it is put under the one at height m; `h`
      is where it was, or the size of the stack. */
  lemma RaisedUnder<T>(s: seq<T>, e: T, m: nat) returns (o: seq<T>, h: nat)
    requires NoDuplicates(s) && 1 <= m < |s| && e != s[m]
    ensures m <= |o| && Step(s, UpDown(e, m - 1)) == o[..m - 1] + [e] + o[m - 1..]
    ensures e !in o && forall x :: x in o ==> x in s
    ensures h <= |s| && if h < |s| then s[h] == e && o == Without(s, h) else e !in s && o == s
  {
    o := Others(s, {e});
    if e in s {
      h :| 0 <= h < |s| && s[h] == e;
      OthersIsWithout(s, h);
      WithoutMembers(s, h);
      assert |o| == |s| - 1;
    } else {
      h := |s|;
      OthersOfNone(s, {e});
    }
  }

  /** The bottom layer stays when a layer goes under the one at height m, unless
      it is the one that goes, or is itself the mark. */
  lemma BottomStays<T>(s: seq<T>, e: T, m: nat)
    requires NoDuplicates(s) && 1 <= m < |s| && e != s[m]
    ensures
      var r := Step(s, UpDown(e, m - 1));
      && |r| > 0 && (r[0] == s[0] <==> (e == s[0] <==> m == 1))
  {
    var o, h := RaisedUnder(s, e, m);
  }
}
