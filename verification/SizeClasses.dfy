/** The 159 small size classes: the arithmetic between a request size, the index
    of its class and the slot size of that class. */
module SizeClasses {

  const CLASSES := 159
  /** Largest request served from slots; anything bigger is served in whole pages. */
  const THRESH_ALLOC := 32768
  const MAX_FETCH := 32

  /** Slot size of class `index`; past the last class the C function falls through
      all its branches and hands back `index + 1`. */
  function IndexToSize(index: nat): nat {
    if index <= 7 then 8 * (index + 1)
    else if index <= 38 then 64 * (index + 1 - 8) + 64
    else if index <= 158 then 256 * (index + 1 - 39) + 2048
    else index + 1
  }

  /** Class index of a request. For 0 the unsigned subtraction wraps and the
      truncation to `int` leaves -1, the value also used for "not small". */
  function GetIndex(size: nat): int {
    if size == 0 then -1
    else if size <= 64 then (size - 1) / 8
    else if size <= 2048 then (size - 65) / 64 + 8
    else if size <= THRESH_ALLOC then (size - 2049) / 256 + 8 + 31
    else -1
  }

  /** A request belongs to a class exactly when it is between 1 and 32768 bytes, and
      then to the smallest class whose slots hold it. */
  lemma SmallestClass(size: nat)
    ensures 1 <= size <= THRESH_ALLOC <==> 0 <= GetIndex(size)
    ensures 1 <= size <= THRESH_ALLOC ==>
              && GetIndex(size) < CLASSES
              && size <= IndexToSize(GetIndex(size)) <= THRESH_ALLOC
              && forall j: nat :: j < GetIndex(size) ==> IndexToSize(j) < size
  {
    if 1 <= size <= THRESH_ALLOC {
      var i := GetIndex(size);
      assert i > 0 ==> IndexToSize(i - 1) < size;
      forall j: nat | j < i
        ensures IndexToSize(j) < size
      {
        SizesIncrease(j, i - 1);
      }
    }
  }

  /** Slot sizes grow strictly with the class index. */
  lemma SizesIncrease(i: nat, j: nat)
    requires i <= j < CLASSES
    ensures i < j ==> IndexToSize(i) < IndexToSize(j)
    ensures i == j ==> IndexToSize(i) == IndexToSize(j)
  {
  }

  /** A slot size names its own class, so the size recorded in a span recovers the class. */
  lemma ClassRoundTrip(i: nat)
    requires i < CLASSES
    ensures 1 <= IndexToSize(i) <= THRESH_ALLOC
    ensures GetIndex(IndexToSize(i)) == i
    ensures IndexToSize(i) % 8 == 0
  {
  }

  /** Sum of the slot sizes of classes below n. */
  function SumOfSizes(n: nat): nat {
    if n == 0 then 0 else SumOfSizes(n - 1) + IndexToSize(n - 1)
  }

  /** 1 + 2 + ... + n */
  function Triangle(n: nat): nat {
    if n == 0 then 0 else Triangle(n - 1) + n
  }

  lemma {:induction false} TriangleTwice(n: nat)
    ensures 2 * Triangle(n) == n * (n + 1)
  {
    if n > 0 {
      TriangleTwice(n - 1);
    }
  }

  lemma {:induction false} SumOfFirst(n: nat)
    requires n <= 8
    ensures SumOfSizes(n) == 8 * Triangle(n)
  {
    if n > 0 {
      SumOfFirst(n - 1);
    }
  }

  lemma {:induction false} SumOfSecond(k: nat)
    requires k <= 31
    ensures SumOfSizes(8 + k) == SumOfSizes(8) + 64 * Triangle(k) + 64 * k
  {
    if k > 0 {
      SumOfSecond(k - 1);
    }
  }

  lemma {:induction false} SumOfThird(k: nat)
    requires k <= 120
    ensures SumOfSizes(39 + k) == SumOfSizes(39) + 256 * Triangle(k) + 2048 * k
  {
    if k > 0 {
      SumOfThird(k - 1);
    }
  }

  /** All 159 slot sizes together. */
  lemma TotalOfSizes()
    ensures SumOfSizes(CLASSES) == 2138336
  {
    assert SumOfSizes(8) == 288 by {
      SumOfFirst(8);
      TriangleTwice(8);
    }
    assert SumOfSizes(39) == 34016 by {
      SumOfSecond(31);
      TriangleTwice(31);
    }
    SumOfThird(120);
    TriangleTwice(120);
  }
}
