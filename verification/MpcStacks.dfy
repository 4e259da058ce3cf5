/** The storage of the parse stacks: arrays that grow by half and shrink by a third. */
module MpcStacks {

  /** The ceiling of one and a half times `slots + 1`. */
  function Grown(slots: nat): nat {
    (3 * (slots + 1) + 1) / 2
  }

  /** The floor of two thirds of `slots - 1`. */
  function Shrunk(slots: nat): nat
    requires slots >= 1
  {
    2 * (slots - 1) / 3
  }

  /** `slots` exceeds the power one and a half of `num + 1`. */
  predicate TooRoomy(slots: nat, num: nat) {
    slots * slots > (num + 1) * (num + 1) * (num + 1)
  }

  /** The smallest number that is at least one and a half times `slots + 1`. */
  lemma GrownMeaning(slots: nat)
    ensures 2 * Grown(slots) >= 3 * (slots + 1) > 2 * (Grown(slots) - 1)
  {
  }

  /** The largest number that is at most two thirds of `slots - 1`. */
  lemma ShrunkMeaning(slots: nat)
    requires slots >= 1
    ensures 3 * Shrunk(slots) <= 2 * (slots - 1) < 3 * (Shrunk(slots) + 1)
  {
  }

  /** The power one and a half of a square is the cube of its root; between squares the test is monotone. */
  lemma TooRoomyMeaning(slots: nat, root: nat, num: nat)
    ensures root >= 1 ==> (TooRoomy(slots, root * root - 1) <==> slots > root * root * root)
    ensures TooRoomy(slots, num + 1) ==> TooRoomy(slots, num)
    ensures TooRoomy(slots, num) ==> TooRoomy(slots + 1, num)
  {
    RootedTest(slots, root);
    CubeOfNext(num);
    CubeOfNext(num + 1);
    SquaresMonotone(slots, slots + 1);
    CubesMonotone(num + 1);
  }

  lemma CubesMonotone(n: nat)
    ensures n * n * n <= (n + 1) * (n + 1) * (n + 1)
  {
    CubeOfNext(n);
    assert n * n >= 0;
  }

  lemma RootedTest(slots: nat, root: nat)
    ensures root >= 1 ==> (TooRoomy(slots, root * root - 1) <==> slots > root * root * root)
  {
    if root >= 1 {
      var c := root * root * root;
      assert (root * root) * (root * root) * (root * root) == c * c by { Sixth(root); }
      if slots > c { StrictSquares(c, slots); } else { SquaresMonotone(slots, c); }
    }
  }

  lemma Sixth(r: nat)
    ensures (r * r) * (r * r) * (r * r) == (r * r * r) * (r * r * r)
  {
    var a := r * r;
    assert (r * a) * (r * a) == (r * r) * (a * a) by { Pairs(r, a); }
    assert r * r * r == r * a;
  }

  lemma Pairs(r: nat, a: nat)
    ensures (r * a) * (r * a) == (r * r) * (a * a)
  {
    assert (r * a) * (r * a) == r * (a * (r * a));
    assert a * (r * a) == r * (a * a);
    assert r * (r * (a * a)) == (r * r) * (a * a);
  }

  lemma StrictSquares(a: nat, b: nat)
    requires a < b
    ensures a * a < b * b
  {
    SquaresMonotone(a + 1, b);
    assert (a + 1) * (a + 1) == a * a + 2 * a + 1;
  }

  /** Growing makes room for one more. */
  lemma GrowthSuffices(slots: nat)
    ensures slots + 1 <= Grown(slots)
  {
  }

  /** Shrinking keeps what is in use. */
  lemma ShrinkingKeeps(slots: nat, num: nat)
    requires TooRoomy(slots, num)
    ensures slots >= 1 && num <= Shrunk(slots)
  {
    if 2 * slots <= 3 * num + 1 {
      TightIsNotRoomy(slots, num);
    }
  }

  lemma TightIsNotRoomy(slots: nat, num: nat)
    requires 2 * slots <= 3 * num + 1
    ensures !TooRoomy(slots, num)
  {
    var a, b := 2 * slots, 3 * num + 1;
    SquaresMonotone(a, b);
    assert a * a == 4 * (slots * slots);
    assert b * b == 9 * (num * num) + 6 * num + 1;
    CubeOfNext(num);
    CompareExact(slots * slots, num, num * num, num * num * num);
  }

  lemma CompareExact(square: nat, n: nat, n2: nat, n3: nat)
    requires 4 * square <= 9 * n2 + 6 * n + 1
    ensures square <= n3 + 3 * n2 + 3 * n + 1
  {
  }

  lemma SquaresMonotone(a: nat, b: nat)
    requires a <= b
    ensures a * a <= b * b
  {
    assert b * b - a * a == (b - a) * (b + a);
  }

  /**
    The same in floating point, where the power that `slots` is compared with and the two thirds
    of `slots - 1` are rounded.  Either may come out too small by one part in a hundred, which is
    far more than doubles lose: `slots` is then above the power up to that error, and `shrunk` is
    the floor of a number that is two thirds of `slots - 1` up to that error.
   */
  lemma ShrinkingKeepsRounded(slots: nat, num: nat, shrunk: nat)
    requires 10000 * (slots * slots) >= 9801 * ((num + 1) * (num + 1) * (num + 1))
    requires 300 * (shrunk + 1) > 198 * (slots - 1)
    ensures num <= shrunk
  {
    if shrunk < num {
      NearlyTightIsNotRoomy(slots, num);
    }
  }

  lemma NearlyTightIsNotRoomy(slots: nat, num: nat)
    requires num > 0 && 198 * (slots - 1) < 300 * num
    ensures 10000 * (slots * slots) < 9801 * ((num + 1) * (num + 1) * (num + 1))
  {
    var a, b := 33 * slots, 50 * num + 33;
    SquaresMonotone(a, b);
    assert a * a == 1089 * (slots * slots);
    assert b * b == 2500 * (num * num) + 3300 * num + 1089;
    CubeOfNext(num);
    Compare(slots * slots, num, num * num, num * num * num);
  }

  lemma CubeOfNext(n: nat)
    ensures (n + 1) * (n + 1) * (n + 1) == n * n * n + 3 * (n * n) + 3 * n + 1
    ensures n > 0 ==> n * n * n >= n * n >= n
  {
    if n > 0 {
      assert n * n == n * 1 + n * (n - 1);
      assert n * n * n == (n * n) * 1 + (n * n) * (n - 1);
    }
  }

  lemma Compare(square: nat, n: nat, n2: nat, n3: nat)
    requires 1089 * square <= 2500 * n2 + 3300 * n + 1089 && 1 <= n <= n2 <= n3
    ensures 10000 * square < 9801 * (n3 + 3 * n2 + 3 * n + 1)
  {
  }

  class Stack<T(0)> {
    var num: nat
    var slots: nat
    var data: array<T>

    ghost predicate Valid()
      reads this
    {
      num <= slots && slots == data.Length
    }

    ghost function Contents(): seq<T>
      reads this, data
      requires Valid()
    {
      data[..num]
    }

    constructor ()
      ensures Valid() && fresh(data) && Contents() == []
    {
      num, slots := 0, 0;
      data := new T[0];
    }

    /** Move the stack to a new array of `size` elements. */
    method Reallocate(size: nat, used: nat)
      requires used <= size && used <= data.Length
      modifies this`slots, this`data
      ensures fresh(data) && slots == size == data.Length && data[..used] == old(data[..used])
    {
      var from, moved := data, new T[size];
      for i := 0 to used
        invariant moved[..i] == from[..i] && from[..used] == old(data[..used])
      {
        moved[i] := from[i];
      }
      data, slots := moved, size;
    }

    method Push(x: T)
      requires Valid()
      modifies this, data
      ensures Valid() && (data == old(data) || fresh(data))
      ensures Contents() == old(Contents()) + [x]
    {
      if num + 1 > slots {
        GrowthSuffices(slots);
        Reallocate(Grown(slots), num);
      }
      data[num] := x;
      num := num + 1;
    }

    method Pop() returns (x: T)
      requires Valid() && num > 0
      modifies this
      ensures Valid() && (data == old(data) || fresh(data))
      ensures old(Contents()) == Contents() + [x]
    {
      x := data[num - 1];
      num := num - 1;
      assert old(data[..num]) == data[..num] + [x];
      if TooRoomy(slots, num) {
        ShrinkingKeeps(slots, num);
        Reallocate(Shrunk(slots), num);
      }
    }
  }

  datatype Op<T> = PushOp(x: T) | PopOp

  /** What a stack holds after the operations, popping an empty stack being left out. */
  function After<T>(ops: seq<Op<T>>): seq<T>
    decreases |ops|
  {
    if ops == [] then []
    else
      var s := After(ops[..|ops| - 1]);
      match ops[|ops| - 1]
      case PushOp(x) => s + [x]
      case PopOp => if s == [] then [] else s[..|s| - 1]
  }

  /** Through any operations the storage holds the stack. */
  method Exercise<T(0)>(ops: seq<Op<T>>) returns (contents: seq<T>, capacity: nat)
    ensures contents == After(ops) && |contents| <= capacity
  {
    var stack := new Stack<T>();
    for i := 0 to |ops|
      invariant stack.Valid() && fresh(stack) && fresh(stack.data) && stack.Contents() == After(ops[..i])
    {
      assert ops[..i + 1][..i] == ops[..i];
      match ops[i]
      case PushOp(x) => stack.Push(x);
      case PopOp =>
        if stack.num > 0 {
          var _ := stack.Pop();
        }
    }
    assert ops[..|ops|] == ops;
    contents, capacity := stack.data[..stack.num], stack.slots;
  }
}
