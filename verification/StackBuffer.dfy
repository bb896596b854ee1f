/** The shared segment and its semaphores as one object, and push and pop as they run from one
    acquisition of sem 0 to its release: in the default mode nobody else touches the object then. */
module StackBuffer {
  import opened StackSpec

  class SharedStack {
    var lock: nat      // sem 0
    var count: nat     // sem 1
    var empty: nat     // sem 2
    var size: nat      // sem 3
    var buffer: array<Val>

    ghost predicate Valid()
      reads this, buffer
    {
      && lock == 1 && buffer.Length == size && count + empty == size
      && forall i :: count <= i < size ==> buffer[i] == POISON
    }

    ghost function Contents(): (s: seq<Val>)
      reads this, buffer
      requires Valid()
    {
      buffer[..count]
    }

    constructor (size: nat)
      ensures Valid() && Contents() == [] && this.size == size && fresh(buffer)
    {
      this.size := size;
      lock, count, empty := 1, 0, size;
      buffer := new Val[size];
      new;
      for i := 0 to size
        modifies buffer
        invariant buffer.Length == size
        invariant forall j :: 0 <= j < i ==> buffer[j] == POISON
      {
        buffer[i] := POISON;
      }
    }

    method Push(val: Val) returns (result: int)
      requires Valid()
      modifies this`lock, this`count, this`empty, buffer
      ensures Valid()
      ensures Contents() == Apply(size, old(Contents()), StackSpec.Push(val)).0
      ensures result == if Apply(size, old(Contents()), StackSpec.Push(val)).1 == Pushed then 0 else -1
    {
      lock := lock - 1;
      if empty == 0 {
        lock := lock + 1;
        return -1;
      }
      buffer[count] := val;
      count := count + 1;
      empty := empty - 1;
      lock := lock + 1;
      result := 0;
    }

    method Pop() returns (result: int, val: Val)
      requires Valid()
      modifies this`lock, this`count, this`empty, buffer
      ensures Valid()
      ensures Contents() == Apply(size, old(Contents()), StackSpec.Pop).0
      ensures match Apply(size, old(Contents()), StackSpec.Pop).1
              case Popped(v) => result == 0 && val == v
              case _ => result == -1
    {
      lock := lock - 1;
      if count == 0 {
        lock := lock + 1;
        return -1, POISON;
      }
      count := count - 1;
      empty := empty + 1;
      val := buffer[count];
      buffer[count] := POISON;
      lock := lock + 1;
      result := 0;
    }
  }
}
