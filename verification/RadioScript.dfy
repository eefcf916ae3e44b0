/**
 What a radio may do to the calls of a connection, and how a script of such outcomes decides a series of
 connection attempts.
 */
module RadioScript {

  /** How one operation of the radio turns out. */
  datatype Outcome =
    | Fine           // it succeeds
    | FineThenLost   // it succeeds and the peer vanishes before anyone looks
    | Raises         // it raises and nothing has changed
    | RaisesDone     // it raises although it took effect
    | RaisesAndLost  // it raises and the peer vanishes

  type Script = seq<Outcome>

  predicate Succeeds(o: Outcome) {
    o == Fine || o == FineThenLost
  }

  predicate Loses(o: Outcome) {
    o == FineThenLost || o == RaisesAndLost
  }

  /** Whether the operation took effect, successful or not. */
  predicate Done(o: Outcome) {
    Succeeds(o) || o == RaisesDone
  }

  /** The outcome at this place of the script; behind the script the radio works. */
  function Upcoming(script: Script, k: nat): Outcome {
    if k < |script| then script[k] else Fine
  }

  // ----- one attempt -----

  /** One attempt: up, failed and cleaned up after, or failed with a cleanup that raised; and the outcomes it used. */
  datatype Try = Connected(used: nat) | Cleaned(used: nat) | Stuck(used: nat)

  function CleanUp(script: Script, at: nat, used: nat): Try {
    if Succeeds(Upcoming(script, at + used)) then Cleaned(used + 1) else Stuck(used + 1)
  }

  /**
   An attempt that begins at this place of the script.  The factory, the connect and, if wanted, the subscription
   take an outcome each; a client there is to clean up, be it an old one, takes one more.
   */
  function TryOf(script: Script, at: nat, subscribe: bool, stale: bool): Try {
    if !Succeeds(Upcoming(script, at)) then
      if stale then CleanUp(script, at, 1) else Cleaned(1)
    else if !Succeeds(Upcoming(script, at + 1)) then CleanUp(script, at, 2)
    else if !subscribe then Connected(2)
    else if !Succeeds(Upcoming(script, at + 2)) then CleanUp(script, at, 3)
    else Connected(3)
  }

  /** Whether an attempt that succeeds leaves the link up. */
  predicate StaysUp(script: Script, at: nat, subscribe: bool) {
    !Loses(Upcoming(script, at + 1)) && (subscribe ==> !Loses(Upcoming(script, at + 2)))
  }

  // ----- a series of attempts -----

  /**
   What a series of attempts starts from: a place of the script, whether the first attempt is to subscribe and
   whether later ones are, and whether there is an old client.
   */
  datatype Series = Series(script: Script, place: nat, subscribe: bool, wanted: bool, stale: bool)

  /** Where in the script the j-th attempt begins, counting from 0, when all before it failed. */
  function PlaceOf(s: Series, j: nat): nat
    decreases j, 0
  {
    if j == 0 then s.place else PlaceOf(s, j - 1) + TryAt(s, j - 1).used
  }

  /** Only the first attempt can find an old client, or the flag still set. */
  function TryAt(s: Series, j: nat): Try
    decreases j, 1
  {
    if j == 0 then TryOf(s.script, s.place, s.subscribe, s.stale) else TryOf(s.script, PlaceOf(s, j), s.wanted, false)
  }

  predicate SubscribesAt(s: Series, j: nat) {
    if j == 0 then s.subscribe else s.wanted
  }

  predicate UpAt(s: Series, j: nat) {
    StaysUp(s.script, PlaceOf(s, j), SubscribesAt(s, j))
  }

  /** The first n attempts all failed and were cleaned up after. */
  predicate AllCleaned(s: Series, n: nat) {
    n == 0 || (AllCleaned(s, n - 1) && TryAt(s, n - 1).Cleaned?)
  }

  lemma {:induction false} CleanedAt(s: Series, n: nat, j: nat)
    requires AllCleaned(s, n) && j < n
    ensures TryAt(s, j).Cleaned?
  {
    if j < n - 1 {
      CleanedAt(s, n - 1, j);
    }
  }

  /** How a connect or reconnect ended: by returning, or by one of the ways it can raise. */
  datatype Ending = Returned | Exhausted | CleanupRaised | SubscribeRaised

  /** How up to n attempts end: the first that does not fail cleanly decides, else they are exhausted. */
  ghost predicate Ends(s: Series, n: nat, r: Ending, attempts: nat) {
    && 1 <= attempts <= n && AllCleaned(s, attempts - 1)
    && var last := TryAt(s, attempts - 1);
       match r
       case Returned => last.Connected?
       case CleanupRaised => last.Stuck?
       case Exhausted => attempts == n && last.Cleaned?
       case SubscribeRaised => false
  }

  /** When an attempt succeeds, and when it fails with a cleanup that raises. */
  lemma TryExactly(script: Script, at: nat, subscribe: bool, stale: bool)
    ensures var t := TryOf(script, at, subscribe, stale);
      && (t.Connected? <==>
            && Succeeds(Upcoming(script, at)) && Succeeds(Upcoming(script, at + 1))
            && (subscribe ==> Succeeds(Upcoming(script, at + 2))))
      && (t.Stuck? <==>
            && !t.Connected? && (stale || Succeeds(Upcoming(script, at)))
            && 1 <= t.used && !Succeeds(Upcoming(script, at + t.used - 1)))
      && 1 <= t.used <= 4
  {
  }

  /** The k-th attempt is the first that does not fail cleanly. */
  ghost predicate Decides(s: Series, n: nat, k: nat) {
    k < n && AllCleaned(s, k) && !TryAt(s, k).Cleaned?
  }

  lemma OneDecides(s: Series, n: nat, j: nat, k: nat)
    requires Decides(s, n, j) && Decides(s, n, k)
    ensures j == k
  {
    if j < k {
      CleanedAt(s, k, j);
    } else if k < j {
      CleanedAt(s, j, k);
    }
  }

  /**
   The ending is decided by the script alone.  The series returns after k + 1 attempts if and only if the k-th
   succeeds and all before it failed cleanly; it raises from a cleanup after k + 1 attempts if and only if that of
   the k-th raises and all before it failed cleanly; and while no cleanup raises, it returns if and only if one of
   the first n attempts succeeds.
   */
  lemma EndsExactly(s: Series, n: nat, r: Ending, attempts: nat, k: nat)
    requires Ends(s, n, r, attempts)
    ensures r == Returned && attempts == k + 1 <==> k < n && AllCleaned(s, k) && TryAt(s, k).Connected?
    ensures r == CleanupRaised && attempts == k + 1 <==> k < n && AllCleaned(s, k) && TryAt(s, k).Stuck?
    ensures (forall j: nat :: j < n ==> !TryAt(s, j).Stuck?) ==>
              (r == Returned <==> exists j: nat :: j < n && TryAt(s, j).Connected?)
  {
    var last: nat := attempts - 1;
    if Decides(s, n, k) {
      if r == Exhausted {
        CleanedAt(s, n, k);
      } else {
        OneDecides(s, n, k, last);
      }
    }
    if r == Exhausted {
      forall j: nat | j < n ensures TryAt(s, j).Cleaned? {
        CleanedAt(s, n, j);
      }
    } else {
      assert last < n && (r == Returned <==> TryAt(s, last).Connected?) && (r == CleanupRaised <==> TryAt(s, last).Stuck?);
    }
  }

  /** Behind the script nothing goes wrong: the first attempt succeeds. */
  lemma EndsAtOnce(s: Series, n: nat, r: Ending, attempts: nat)
    requires Ends(s, n, r, attempts) && |s.script| <= s.place
    ensures r == Returned && attempts == 1 && UpAt(s, 0)
  {
    if attempts > 1 {
      CleanedAt(s, attempts - 1, 0);
    }
  }
}
