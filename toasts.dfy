/** The toast notification store: a list of visible toasts and a set of
    recently shown `message-type` keys that suppresses duplicates for five
    seconds. The two `setTimeout` callbacks of each add become pending
    `Timer` values that `Tick` fires once they are due. */
module Toasts {

  datatype ToastType = Success | Error | Info

  /** The identifier is the millisecond timestamp of the add (its decimal
      string in the source; that rendering is injective, so the number stands
      for it). */
  datatype Toast = Toast(id: nat, message: string, kind: ToastType)

  /** A pending timeout: forget a de-duplication key, or dismiss a toast. */
  datatype Timer = ForgetKey(key: string, due: nat) | Dismiss(id: nat, due: nat)

  /** How long a key stays recent and a toast stays visible, in milliseconds. */
  const Lifetime: nat := 5000

  function TypeName(t: ToastType): (name: string)
    ensures |name| > 0
  {
    match t
    case Success => "success"
    case Error => "error"
    case Info => "info"
  }

  /** The de-duplication key `${message}-${type}`. */
  function Key(message: string, t: ToastType): (key: string)
    ensures |key| == |message| + 1 + |TypeName(t)|
    ensures key[..|message|] == message
  {
    message + "-" + TypeName(t)
  }

  /** Distinct (message, type) pairs get distinct keys: the three type names
      end in different letters, which fixes the type, and then the length
      fixes the message. */
  lemma KeyInjective(m1: string, t1: ToastType, m2: string, t2: ToastType)
    requires Key(m1, t1) == Key(m2, t2)
    ensures m1 == m2 && t1 == t2
  {
    var k := Key(m1, t1);
    assert k[|k| - 1] == TypeName(t1)[|TypeName(t1)| - 1];
    assert k[|k| - 1] == TypeName(t2)[|TypeName(t2)| - 1];
    assert t1 == t2;
    assert |m1| == |m2|;
    assert m1 == k[..|m1|] == m2;
  }

  /** The toasts of `s` whose id is not in `ids`, in their original order
      (the source's `filter(toast => toast.id !== id)`, for several ids). */
  function Without(s: seq<Toast>, ids: set<nat>): (r: seq<Toast>)
    ensures |r| <= |s|
    ensures forall t :: t in r <==> t in s && t.id !in ids
  {
    if s == [] then []
    else Without(s[..|s| - 1], ids) + (if s[|s| - 1].id in ids then [] else [s[|s| - 1]])
  }

  /** Filtering distributes over concatenation, so what survives keeps its
      relative order. */
  lemma {:induction false} WithoutAppend(a: seq<Toast>, b: seq<Toast>, ids: set<nat>)
    ensures Without(a + b, ids) == Without(a, ids) + Without(b, ids)
  {
    if b == [] {
      assert a + b == a;
    } else {
      var b' := b[..|b| - 1];
      assert (a + b)[..|a + b| - 1] == a + b';
      assert (a + b)[|a + b| - 1] == b[|b| - 1];
      WithoutAppend(a, b', ids);
    }
  }

  /** Filtering twice by the same ids is the same as filtering once. */
  lemma {:induction false} WithoutIdempotent(s: seq<Toast>, ids: set<nat>)
    ensures Without(Without(s, ids), ids) == Without(s, ids)
  {
    if s != [] {
      var s' := s[..|s| - 1];
      var last := if s[|s| - 1].id in ids then [] else [s[|s| - 1]];
      WithoutIdempotent(s', ids);
      WithoutAppend(Without(s', ids), last, ids);
      if last != [] {
        assert last[..0] == [];
      }
    }
  }

  /** A filter that matches no toast returns the list unchanged. */
  lemma {:induction false} WithoutAbsent(s: seq<Toast>, ids: set<nat>)
    requires forall i :: 0 <= i < |s| ==> s[i].id !in ids
    ensures Without(s, ids) == s
  {
    if s != [] {
      var prefix := s[..|s| - 1];
      assert forall i :: 0 <= i < |prefix| ==> prefix[i] == s[i];
      WithoutAbsent(prefix, ids);
      assert prefix + [s[|s| - 1]] == s;
    }
  }

  /** The keys that a pending timer is going to forget. */
  function ForgetKeys(timers: set<Timer>): set<string>
  {
    set t | t in timers && t.ForgetKey? :: t.key
  }

  /** The ids that a pending timer is going to dismiss. */
  function DismissIds(timers: set<Timer>): set<nat>
  {
    set t | t in timers && t.Dismiss? :: t.id
  }

  class ToastStore {
    var toasts: seq<Toast>
    var recent: set<string>
    var timers: set<Timer>

    ghost predicate Valid()
      reads this
    {
      // a key is recent exactly while its forget timer is pending, and there
      // is one such timer per key
      && recent == ForgetKeys(timers)
      && (forall t1, t2 ::
            (t1 in timers && t2 in timers && t1.ForgetKey? && t2.ForgetKey? && t1.key == t2.key) ==> t1 == t2)
      // every visible toast is dismissed Lifetime ms after it was added
      && (forall t :: t in toasts ==> Dismiss(t.id, t.id + Lifetime) in timers)
    }

    /** The toast list that `addToast(message, kind)` at time `now` leaves. */
    function Shown(message: string, kind: ToastType, now: nat): seq<Toast>
      reads this
    {
      if Key(message, kind) in recent then toasts else toasts + [Toast(now, message, kind)]
    }

    constructor ()
      ensures Valid() && toasts == [] && recent == {} && timers == {}
    {
      toasts, recent, timers := [], {}, {};
    }

    /** `addToast(message, type)` at time `now`: a duplicate of a recent toast
        is dropped; otherwise its key becomes recent, the toast is appended at
        the end, and both are scheduled to expire Lifetime ms later. */
    method AddToast(message: string, kind: ToastType, now: nat)
      requires Valid()
      modifies this
      ensures Valid()
      ensures Key(message, kind) in old(recent) ==> toasts == old(toasts) && recent == old(recent) && timers == old(timers)
      ensures Key(message, kind) !in old(recent) ==>
        && toasts == old(toasts) + [Toast(now, message, kind)]
        && recent == old(recent) + {Key(message, kind)}
        && timers == old(timers) + {ForgetKey(Key(message, kind), now + Lifetime), Dismiss(now, now + Lifetime)}
      ensures toasts == old(Shown(message, kind, now)) && recent == old(recent) + {Key(message, kind)}
    {
      var key := Key(message, kind);
      if key in recent {
        return;
      }
      assert forall t :: t in timers && t.ForgetKey? ==> t.key != key;
      recent := recent + {key};
      timers := timers + {ForgetKey(key, now + Lifetime)};
      var id := now;
      toasts := toasts + [Toast(id, message, kind)];
      timers := timers + {Dismiss(id, id + Lifetime)};
    }

    /** `removeToast(id)`: every toast with that id goes, the others keep their
        order, and the recent keys are not touched. */
    method RemoveToast(id: nat)
      requires Valid()
      modifies this
      ensures Valid()
      ensures toasts == Without(old(toasts), {id})
      ensures recent == old(recent) && timers == old(timers)
    {
      toasts := Without(toasts, {id});
    }

    /** The clock reaches `now`: every pending timer that is due fires, so the
        keys and toasts added at least Lifetime ms ago are gone. */
    method Tick(now: nat)
      requires Valid()
      modifies this
      ensures Valid()
      ensures timers == set t | t in old(timers) && t.due > now
      ensures recent == old(recent) - ForgetKeys(set t | t in old(timers) && t.due <= now)
      ensures toasts == Without(old(toasts), DismissIds(set t | t in old(timers) && t.due <= now))
      ensures forall t :: t in toasts ==> now < t.id + Lifetime
      ensures forall t :: t in timers ==> now < t.due
    {
      var fired := set t | t in timers && t.due <= now;
      recent := recent - ForgetKeys(fired);
      toasts := Without(toasts, DismissIds(fired));
      timers := timers - fired;
    }
  }

  /** A repeated toast inside the five-second window is suppressed; once the
      window has passed it is shown again. */
  method DuplicateWindowScenario(now: nat)
  {
    var store := new ToastStore();
    store.AddToast("Saved", Success, now);
    store.AddToast("Saved", Success, now + 10);
    assert |store.toasts| == 1;
    store.Tick(now + Lifetime);
    assert store.toasts == [] && store.recent == {};
    store.AddToast("Saved", Success, now + Lifetime);
    assert store.toasts == [Toast(now + Lifetime, "Saved", Success)];
  }
}
