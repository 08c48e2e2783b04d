/** The array behind an array entry of the generated code: a buffer that doubles
    (EntryArray in libevent-2.0.19/bin/event_rpcgen.py). */
module GrowableArray {
  import opened Basics

  /** How full the buffer is. copied counts the slots realloc has moved so far. */
  datatype Size = Size(length: int, capacity: int, copied: int)

  const EMPTY := Size(0, 0, 0)

  function Doubled(n: int): int {
    if n == 0 then 1 else 2 * n
  }

  /** expand_to_hold_more, when realloc succeeds. */
  function Expanded(s: Size): Size {
    s.(capacity := Doubled(s.capacity), copied := s.copied + s.capacity)
  }

  /** An insertion is an add() or the array case of unmarshal(). memory says whether realloc succeeds if
      it is called, element whether the new element can be made. */
  datatype Step = Add(memory: bool, element: bool) | Unmarshal(memory: bool, element: bool)

  /** add() counts the new element first and then compares, so it expands one element early. */
  predicate Expands(s: Size, a: Step) {
    if a.Add? then s.length + 1 >= s.capacity else s.length >= s.capacity
  }

  predicate Inserts(s: Size, a: Step) {
    a.element && (Expands(s, a) ==> a.memory)
  }

  function Next(s: Size, a: Step): Size {
    if Expands(s, a) then
      if !a.memory then s else if a.element then Expanded(s).(length := s.length + 1) else Expanded(s)
    else
      if a.element then s.(length := s.length + 1) else s
  }

  ghost predicate PowerOf2(n: int) {
    n == 1 || (n > 1 && n % 2 == 0 && PowerOf2(n / 2))
  }

  /** What every mix of insertions and failures keeps. */
  ghost predicate SizeOk(s: Size) {
    && 0 <= s.length <= s.capacity <= 2 * s.length + 2
    && (s.capacity == 0 || PowerOf2(s.capacity))
    && s.copied == (if s.capacity == 0 then 0 else s.capacity - 1)
  }

  /** The buffer is at least half full. */
  predicate Tight(s: Size) {
    s.length > 0 ==> s.capacity <= 2 * s.length
  }

  lemma {:induction false} NextOk(s: Size, a: Step)
    requires SizeOk(s)
    ensures SizeOk(Next(s, a))
    ensures Next(s, a).length == if Inserts(s, a) then s.length + 1 else s.length
    ensures Inserts(s, a) ==> s.length < Next(s, a).capacity
  {
    if s.capacity > 0 { assert PowerOf2(2 * s.capacity); }
  }

  /** Exactly when one step leaves a tight buffer tight: always, but for an add() that expands the buffer
      and then cannot make its element, when the buffer already had room. */
  lemma TightExactly(s: Size, a: Step)
    requires SizeOk(s) && Tight(s)
    ensures Tight(Next(s, a)) <==> !(a.Add? && Expands(s, a) && a.memory && !a.element && 0 < s.length < s.capacity)
  {
  }

  function After(run: seq<Step>, n: nat): Size
    requires n <= |run|
  {
    if n == 0 then EMPTY else Next(After(run, n - 1), run[n - 1])
  }

  /** How many of the first n steps put an element in. */
  function Inserted(run: seq<Step>, n: nat): (k: nat)
    requires n <= |run|
    ensures k <= n
  {
    if n == 0 then 0 else Inserted(run, n - 1) + (if Inserts(After(run, n - 1), run[n - 1]) then 1 else 0)
  }

  /** In every run: the length is the number of elements put in, the buffer holds them, its size is 0 or a
      power of two and at most twice the length and two, and all that realloc ever moved is less than that. */
  lemma {:induction false} RunOk(run: seq<Step>, n: nat)
    requires n <= |run|
    ensures SizeOk(After(run, n)) && After(run, n).length == Inserted(run, n)
    ensures (forall i :: 0 <= i < n ==> run[i].element) ==> Tight(After(run, n))
  {
    hide SizeOk, Tight, Next, Inserts;
    if n == 0 {
      EmptyOk();
    } else {
      RunOk(run, n - 1);
      NextOk(After(run, n - 1), run[n - 1]);
      if forall i :: 0 <= i < n ==> run[i].element { TightExactly(After(run, n - 1), run[n - 1]); }
    }
  }

  lemma EmptyOk()
    ensures SizeOk(EMPTY) && Tight(EMPTY)
  {
  }

  /** Amortised cost: when no element fails to be made, n elements have cost fewer than 2n copied slots. */
  lemma CopiesAmortised(run: seq<Step>, n: nat)
    requires n <= |run| && 0 < Inserted(run, n)
    requires forall i :: 0 <= i < n ==> run[i].element
    ensures After(run, n).copied < 2 * Inserted(run, n)
  {
    RunOk(run, n);
  }

  /** Two adds that expand and then fail leave a buffer of one element with four slots. */
  lemma FailedAddsLoosen()
    ensures var run := [Add(true, true), Add(true, false), Add(true, false)];
            After(run, 3).length == 1 && After(run, 3).capacity == 4 && !Tight(After(run, 3))
  {
    var run := [Add(true, true), Add(true, false), Add(true, false)];
    assert Next(EMPTY, run[0]) == Size(1, 1, 0);
    assert Next(Size(1, 1, 0), run[1]) == Size(1, 2, 1);
    assert Next(Size(1, 2, 1), run[2]) == Size(1, 4, 3);
    hide Next, After;
    AfterStep(run, 0);
    AfterStep(run, 1);
    AfterStep(run, 2);
  }

  lemma AfterStep(run: seq<Step>, n: nat)
    requires n < |run|
    ensures After(run, 0) == EMPTY && After(run, n + 1) == Next(After(run, n), run[n])
  {
  }

  class GrowableArray<T(0)> {
    var data: array<T>
    var length: nat
    var numAllocated: nat
    ghost var copied: int

    ghost predicate Valid()
      reads this
    {
      length <= data.Length == numAllocated
    }

    ghost function Measure(): Size
      reads this
    {
      Size(length, numAllocated, copied)
    }

    ghost function Contents(): seq<T>
      reads this, data
      requires Valid()
    {
      data[..length]
    }

    constructor ()
      ensures Valid() && Measure() == EMPTY && fresh(data)
    {
      data := new T[0];
      length, numAllocated, copied := 0, 0, 0;
    }

    /** expand_to_hold_more: memory is what realloc answers. */
    method Expand(memory: bool) returns (ok: bool)
      requires data.Length == numAllocated
      modifies this
      ensures ok == memory && length == old(length)
      ensures data.Length == numAllocated && Measure() == if memory then Expanded(old(Measure())) else old(Measure())
      ensures if memory then fresh(data) else data == old(data)
      ensures data.Length >= old(data.Length) && forall i :: 0 <= i < old(data.Length) ==> data[i] == old(data[i])
    {
      var tobeAllocated := if numAllocated == 0 then 1 else 2 * numAllocated;
      if !memory {
        return false;
      }
      var newData := new T[tobeAllocated];
      for i := 0 to numAllocated
        modifies newData
        invariant forall j :: 0 <= j < i ==> newData[j] == data[j]
      {
        newData[i] := data[i];
      }
      copied := copied + numAllocated;
      data, numAllocated := newData, tobeAllocated;
      return true;
    }

    /** The generated add(): element is the new element, if it can be made. */
    method AddElement(memory: bool, element: Option<T>) returns (ok: bool)
      requires Valid()
      modifies this, data
      ensures Valid() && (data == old(data) || fresh(data))
      ensures var a := Add(memory, element.Some?);
              && ok == Inserts(old(Measure()), a) && Measure() == Next(old(Measure()), a)
      ensures Contents() == if ok then old(Contents()) + [element.value] else old(Contents())
    {
      length := length + 1;
      if length >= numAllocated {
        var grown := Expand(memory);
        if !grown {
          length := length - 1;
          return false;
        }
      }
      if element.None? {
        length := length - 1;
        return false;
      }
      data[length - 1] := element.value;
      return true;
    }

    /** The array case of the generated unmarshal(): element is what the record decodes to, if it does. */
    method UnmarshalElement(memory: bool, element: Option<T>) returns (ok: bool)
      requires Valid()
      modifies this, data
      ensures Valid() && (data == old(data) || fresh(data))
      ensures var a := Unmarshal(memory, element.Some?);
              && ok == Inserts(old(Measure()), a) && Measure() == Next(old(Measure()), a)
      ensures Contents() == if ok then old(Contents()) + [element.value] else old(Contents())
    {
      if length >= numAllocated {
        var grown := Expand(memory);
        if !grown {
          return false;
        }
      }
      if element.None? {
        return false;
      }
      data[length] := element.value;
      length := length + 1;
      return true;
    }
  }
}
