// A wait list as rt_susp_list_enqueue of rt-thread/src/ipc.c sees it: the place
// that it finds is a parameter, so both queueing policies are covered.

module WaitLists {
  import opened Common

  function Enqueue<T>(list: seq<T>, t: T, place: nat): seq<T> {
    if place <= |list| then list[..place] + [t] + list[place..] else list + [t]
  }

  lemma EnqueueNoDup(list: seq<nat>, t: nat, place: nat)
    requires NoDup(list) && t !in list
    ensures NoDup(Enqueue(list, t, place))
    ensures forall u :: u in Enqueue(list, t, place) <==> u in list || u == t
  {
    var r, p := Enqueue(list, t, place), if place <= |list| then place else |list|;
    assert r == list[..p] + [t] + list[p..];
    forall u ensures u in r <==> u in list || u == t {
      assert list == list[..p] + list[p..];
    }
  }

  // The head of the list has been woken, if there was one.
  ghost predicate HeadWoken(a: seq<nat>, wokenA: set<nat>, b: seq<nat>, wokenB: set<nat>) {
    if a == [] then b == [] && wokenB == wokenA
    else a == [a[0]] + b && wokenB == wokenA + {a[0]}
  }
}
