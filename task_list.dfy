/**
 * `TaskList`: an ordered list of task objects changed in place.  The list is
 * backed by an `ArrayList` that the list shares with whoever handed it over
 * (the loading code) and with whoever asks for it (`asList`, used by saving),
 * so the backing store is an object of its own here.
 */
module TaskLists {
  import opened Tasks

  /** The `ArrayList<Task>` behind a task list. */
  class TaskArray {
    var elems: seq<Task>

    /** `new ArrayList<>()`. */
    constructor ()
      ensures elems == []
    {
      elems := [];
    }
  }

  /** `s` without its element at `i`, the others in their order. */
  function Without<T>(s: seq<T>, i: nat): (r: seq<T>)
    requires i < |s|
    ensures |r| == |s| - 1
    ensures forall j :: 0 <= j < i ==> r[j] == s[j]
    ensures forall j :: i <= j < |r| ==> r[j] == s[j + 1]
  {
    s[..i] + s[i + 1..]
  }

  /** Removing keeps every other element: the removed one is the only one missing. */
  lemma WithoutCounts<T>(s: seq<T>, i: nat)
    requires i < |s|
    ensures multiset(Without(s, i)) + multiset{s[i]} == multiset(s)
  {
    assert s == s[..i] + [s[i]] + s[i + 1..];
  }

  /** Removing from a list of distinct objects keeps them distinct and drops exactly the removed one. */
  lemma WithoutDistinct(s: seq<Task>, i: nat)
    requires i < |s| && Distinct(s)
    ensures Distinct(Without(s, i))
    ensures s[i] !in Without(s, i)
    ensures forall t :: t in Without(s, i) <==> t in s && t != s[i]
  {
    var r := Without(s, i);
    forall t | t in s && t != s[i] ensures t in r {
      var j :| 0 <= j < |s| && s[j] == t;
      if j < i { assert r[j] == t; } else { assert r[j - 1] == t; }
    }
  }

  /** The states of the remaining tasks are the old states without the removed one. */
  lemma ValuesWithout(s: seq<Task>, i: nat)
    requires i < |s|
    ensures Values(Without(s, i)) == Without(Values(s), i)
  {
  }

  class TaskList {
    const tasks: TaskArray

    /** `new TaskList()`: an empty list over a new backing array. */
    constructor ()
      ensures fresh(tasks) && tasks.elems == []
    {
      tasks := new TaskArray();
    }

    /** `new TaskList(list)`: the given array becomes the backing array, shared, not copied. */
    constructor Of(list: TaskArray)
      ensures tasks == list
    {
      tasks := list;
    }

    /** `add`: appends at the end; the earlier tasks are unchanged. */
    method Add(t: Task)
      modifies tasks
      ensures tasks.elems == old(tasks.elems) + [t]
    {
      tasks.elems := tasks.elems + [t];
    }

    /** `get`: the task at `index`, which must be in range. */
    function Get(index: int): (t: Task)
      reads tasks
      requires 0 <= index < |tasks.elems|
      ensures t == tasks.elems[index]
    {
      tasks.elems[index]
    }

    /** `remove`: takes out and returns the task at `index`; the others keep their order. */
    method Remove(index: int) returns (t: Task)
      requires 0 <= index < |tasks.elems|
      modifies tasks
      ensures t == old(tasks.elems[index])
      ensures tasks.elems == Without(old(tasks.elems), index)
    {
      t := tasks.elems[index];
      tasks.elems := tasks.elems[..index] + tasks.elems[index + 1..];
    }

    /** `size`. */
    function Size(): (n: nat)
      reads tasks
      ensures n == |tasks.elems|
    {
      |tasks.elems|
    }

    /** `isEmpty`: true exactly when there are no tasks. */
    function IsEmpty(): (b: bool)
      reads tasks
      ensures b <==> Size() == 0
    {
      tasks.elems == []
    }

    /** `asList`: the backing array itself, so changes through it are changes to this list. */
    function AsList(): (list: TaskArray)
      ensures list == tasks
    {
      tasks
    }
  }
}
