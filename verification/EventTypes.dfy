/** Addresses, node colours and time values shared by the reactor's modules. */
module EventTypes {

  /** The address of a `struct event`. The events of the program live at distinct addresses. */
  type Ptr = int
  const NULL: Ptr := 0

  datatype Color = Black | Red

  datatype Timeval = Timeval(sec: int, usec: int) {

    predicate Normal() {
      0 <= usec < 1000000
    }

    function Micros(): int {
      sec * 1000000 + usec
    }

    /** timercmp(this, t, <) of net/config.h:47-53 */
    predicate Less(t: Timeval) {
      if sec == t.sec then usec < t.usec else sec < t.sec
    }

    /** timeradd of net/config.h:22-30 */
    function Add(t: Timeval): Timeval {
      if usec + t.usec >= 1000000 then Timeval(sec + t.sec + 1, usec + t.usec - 1000000)
      else Timeval(sec + t.sec, usec + t.usec)
    }

    /** timersub of net/config.h:31-39 */
    function Sub(t: Timeval): Timeval {
      if usec - t.usec < 0 then Timeval(sec - t.sec - 1, usec - t.usec + 1000000)
      else Timeval(sec - t.sec, usec - t.usec)
    }
  }

  /** On normal time values the macros compute with microseconds. */
  lemma TimevalArithmetic(a: Timeval, b: Timeval)
    requires a.Normal() && b.Normal()
    ensures a.Less(b) <==> a.Micros() < b.Micros()
    ensures a == b <==> a.Micros() == b.Micros()
    ensures a.Add(b).Normal() && a.Add(b).Micros() == a.Micros() + b.Micros()
    ensures a.Sub(b).Normal() && a.Sub(b).Micros() == a.Micros() - b.Micros()
  {
  }

  /** `compare` of net/event.c:106-120: by timeout, then by address. */
  function Compare(ta: Timeval, a: Ptr, tb: Timeval, b: Ptr): int {
    if ta.Less(tb) then -1
    else if tb.Less(ta) then 1
    else if a < b then -1
    else if a > b then 1
    else 0
  }

  /** Moving both timeouts by the same amount does not change a comparison. */
  lemma CompareShifted(ta: Timeval, a: Ptr, tb: Timeval, b: Ptr, off: Timeval)
    requires ta.Normal() && tb.Normal() && off.Normal()
    ensures Compare(ta.Sub(off), a, tb.Sub(off), b) == Compare(ta, a, tb, b)
  {
    TimevalArithmetic(ta, tb);
    TimevalArithmetic(ta, off);
    TimevalArithmetic(tb, off);
    TimevalArithmetic(ta.Sub(off), tb.Sub(off));
  }

  /** `compare` is a total order in which only a node equals itself. */
  lemma CompareTotalOrder(ta: Timeval, a: Ptr, tb: Timeval, b: Ptr, tc: Timeval, c: Ptr)
    ensures Compare(ta, a, tb, b) == -Compare(tb, b, ta, a)
    ensures Compare(ta, a, tb, b) == 0 <==> ta == tb && a == b
    ensures Compare(ta, a, tb, b) < 0 && Compare(tb, b, tc, c) < 0 ==> Compare(ta, a, tc, c) < 0
  {
  }

  /** The earlier timeout comes first, and of equal ones that at the lower address. */
  lemma CompareMeans(ta: Timeval, a: Ptr, tb: Timeval, b: Ptr)
    ensures Compare(ta, a, tb, b) < 0 <==> ta.Less(tb) || (ta == tb && a < b)
    ensures Compare(ta, a, tb, b) > 0 <==> tb.Less(ta) || (ta == tb && a > b)
  {
  }

  /** s without the element x. */
  function Without(s: seq<Ptr>, x: Ptr): seq<Ptr> {
    if s == [] then [] else if s[0] == x then s[1..] else [s[0]] + Without(s[1..], x)
  }

  lemma {:induction false} WithoutAt(s: seq<Ptr>, k: nat)
    requires k < |s| && forall i {:trigger s[i]} :: 0 <= i < k ==> s[i] != s[k]
    ensures Without(s, s[k]) == s[..k] + s[k + 1..]
  {
    if k > 0 {
      WithoutAt(s[1..], k - 1);
      assert s[..k] == [s[0]] + s[1..][..k - 1];
    }
  }

  predicate NoRepeats(s: seq<Ptr>) {
    forall i, j {:trigger s[i], s[j]} :: 0 <= i < j < |s| ==> s[i] != s[j]
  }

  lemma {:induction false} WithoutElements(s: seq<Ptr>, x: Ptr)
    requires NoRepeats(s)
    ensures NoRepeats(Without(s, x))
    ensures forall e {:trigger e in Without(s, x)} :: e in Without(s, x) <==> e in s && e != x
  {
    if s != [] {
      assert s == [s[0]] + s[1..];
      assert s[0] !in s[1..];
      if s[0] != x {
        WithoutElements(s[1..], x);
        assert s[0] !in Without(s[1..], x);
      }
    }
  }
}
