/** The search debounce of both CoffeeList components, on a logical clock.
    Typing a new term clears the pending timer and schedules a fresh one
    300 ms later; when it fires, the displayed (committed) term becomes the
    term typed last. Time is a natural number of milliseconds that only
    moves forward. */
module Debounce {
  import opened Wrappers

  /** The delay of `setTimeout(..., 300)`. */
  const QuietWindow: nat := 300

  /** A scheduled timer: when it fires and the term it will commit. */
  datatype Timer = Timer(due: nat, term: string)

  /** The clock, the raw and committed search terms, and the one timer the
      effect keeps (the `debounceTimer` ref / the effect's `timer`). */
  datatype Clock = Clock(now: nat, searchTerm: string, displayed: string, timer: Option<Timer>)

  /** At most one timer, due within the quiet window, committing the
      latest raw term. */
  predicate Valid(c: Clock)
  {
    c.timer.Some? ==>
      c.now < c.timer.value.due <= c.now + QuietWindow && c.timer.value.term == c.searchTerm
  }

  /** The first render: both terms empty, and the effect's first run has
      scheduled a timer. */
  function Mount(): (c: Clock)
    ensures Valid(c) && c.searchTerm == "" && c.displayed == ""
    ensures c.timer == Some(Timer(QuietWindow, ""))
  {
    Clock(0, "", "", Some(Timer(QuietWindow, "")))
  }

  /** The input's change event. The effect depends on the raw term only, so
      it re-runs (clear, then schedule) exactly when the term changes. */
  function Type(c: Clock, value: string): (r: Clock)
    ensures r.now == c.now && r.displayed == c.displayed && r.searchTerm == value
    ensures value != c.searchTerm ==> r.timer == Some(Timer(c.now + QuietWindow, value))
    ensures value == c.searchTerm ==> r == c
  {
    if value == c.searchTerm then c
    else c.(searchTerm := value, timer := Some(Timer(c.now + QuietWindow, value)))
  }

  /** Time passes until `t`; a timer due by then fires and commits its term. */
  function Advance(c: Clock, t: nat): (r: Clock)
    requires c.now <= t
    ensures r.now == t && r.searchTerm == c.searchTerm
    ensures c.timer.Some? && c.timer.value.due <= t ==> r.displayed == c.timer.value.term && r.timer.None?
    ensures !(c.timer.Some? && c.timer.value.due <= t) ==> r.displayed == c.displayed && r.timer == c.timer
  {
    if c.timer.Some? && c.timer.value.due <= t then
      c.(now := t, displayed := c.timer.value.term, timer := None)
    else c.(now := t)
  }

  /** The effect's cleanup on unmount clears the pending timer. */
  function Unmount(c: Clock): (r: Clock)
    ensures r.timer.None? && r.displayed == c.displayed && r.searchTerm == c.searchTerm
  {
    c.(timer := None)
  }

  /** Every event keeps at most one pending timer carrying the latest term. */
  lemma EventsPreserveValid(c: Clock, value: string, t: nat)
    requires Valid(c) && c.now <= t
    ensures Valid(Type(c, value))
    ensures Valid(Advance(c, t))
    ensures Valid(Unmount(c))
  {
  }

  /** When the timer fires it commits the raw term of that moment. */
  lemma FireCommitsLatest(c: Clock, t: nat)
    requires Valid(c) && c.now <= t
    requires c.timer.Some? && c.timer.value.due <= t
    ensures Advance(c, t).displayed == c.searchTerm
  {
  }

  /** Once the window has passed with no typing, the committed term is the
      raw one. */
  lemma QuietWindowCommits(c: Clock)
    requires Valid(c) && c.timer.Some?
    ensures Advance(c, c.now + QuietWindow).displayed == c.searchTerm
  {
  }

  /** Typing each term of `terms`, each followed by `gaps[k]` milliseconds
      of waiting. */
  function Burst(c: Clock, terms: seq<string>, gaps: seq<nat>): (r: Clock)
    requires |terms| == |gaps|
    ensures r.now == c.now + Sum(gaps)
    decreases |terms|
  {
    if terms == [] then c
    else
      var typed := Type(c, terms[0]);
      Burst(Advance(typed, typed.now + gaps[0]), terms[1..], gaps[1..])
  }

  function Sum(s: seq<nat>): nat
  {
    if s == [] then 0 else s[0] + Sum(s[1..])
  }

  /** No term typed repeats the one before it (nor the current one). */
  predicate ChangesEveryTime(start: string, terms: seq<string>)
  {
    (terms != [] ==> terms[0] != start) && forall k | 1 <= k < |terms| :: terms[k] != terms[k - 1]
  }

  /** A burst of edits, each within the quiet window of the previous one,
      commits nothing while it lasts; the only pending commit is the last
      term, due one window after the last keystroke. */
  lemma {:induction false} BurstDefersCommit(c: Clock, terms: seq<string>, gaps: seq<nat>)
    requires Valid(c) && |terms| == |gaps| && terms != []
    requires ChangesEveryTime(c.searchTerm, terms)
    requires forall k | 0 <= k < |gaps| :: gaps[k] < QuietWindow
    ensures var r := Burst(c, terms, gaps);
      r.displayed == c.displayed && r.searchTerm == terms[|terms| - 1]
      && r.timer == Some(Timer(r.now - gaps[|gaps| - 1] + QuietWindow, terms[|terms| - 1]))
    decreases |terms|
  {
    var typed := Type(c, terms[0]);
    var next := Advance(typed, typed.now + gaps[0]);
    assert typed.timer == Some(Timer(c.now + QuietWindow, terms[0]));
    assert gaps[0] < QuietWindow;
    assert next.displayed == c.displayed && next.timer == typed.timer;
    assert Burst(c, terms, gaps) == Burst(next, terms[1..], gaps[1..]);
    if |terms| == 1 {
      assert terms[1..] == [] && gaps[1..] == [];
    } else {
      assert terms[1..][|terms[1..]| - 1] == terms[|terms| - 1];
      assert gaps[1..][|gaps[1..]| - 1] == gaps[|gaps| - 1];
      assert ChangesEveryTime(next.searchTerm, terms[1..]) by {
        assert terms[1..][0] == terms[1];
        forall k | 1 <= k < |terms[1..]| ensures terms[1..][k] != terms[1..][k - 1] {
          assert terms[1..][k] == terms[k + 1] && terms[1..][k - 1] == terms[k];
        }
      }
      assert forall k | 0 <= k < |gaps[1..]| :: gaps[1..][k] < QuietWindow by {
        forall k | 0 <= k < |gaps[1..]| ensures gaps[1..][k] < QuietWindow {
          assert gaps[1..][k] == gaps[k + 1];
        }
      }
      BurstDefersCommit(next, terms[1..], gaps[1..]);
    }
  }

  /** After the burst, one quiet window commits the last term typed. */
  lemma BurstThenQuietCommitsLast(c: Clock, terms: seq<string>, gaps: seq<nat>)
    requires Valid(c) && |terms| == |gaps| && terms != []
    requires ChangesEveryTime(c.searchTerm, terms)
    requires forall k | 0 <= k < |gaps| :: gaps[k] < QuietWindow
    ensures var r := Burst(c, terms, gaps);
      Advance(r, r.now + QuietWindow).displayed == terms[|terms| - 1]
  {
    BurstDefersCommit(c, terms, gaps);
  }
}
