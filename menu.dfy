// The menu-selection state machine of brew buddy, as values: the state that
// `App` holds, the effect of one polled event on it, the highlighted row that
// a frame shows, and the main loop as a function of a sequence of polls.

module Menu {

  /** Key codes: a character key keeps its character; Up, Down and Enter have
    * their own values; every other key code is `OtherKey`. */
  datatype KeyCode = Char(c: char) | Up | Down | Enter | OtherKey

  /** A terminal event: a key press, or anything else (resize, mouse, focus, paste). */
  datatype Event = Key(code: KeyCode) | NonKey

  /** What one call of `handle_events` gets from the terminal: nothing within
    * the 100 ms poll window, an event, or an I/O error from poll or read. */
  datatype Polled = Timeout | Ready(event: Event) | ReadError

  /** The two fields of `App`. `selected` is unbounded (see README). */
  datatype AppState = AppState(exit: bool, selected: nat)

  /** How the main loop left off after a finite prefix of polls: it broke out
    * because `exit` was set, it returned an I/O error, or it is still running. */
  datatype Ending = Exited | IoFailed | Running

  /** The frames drawn, one highlighted row per iteration, and where the loop ended. */
  datatype Outcome = Outcome(final: AppState, iterations: nat, frames: seq<nat>, ending: Ending)

  /** The fixed tea menu drawn on every frame. */
  const Teas: seq<string> := ["green tea", "black tea", "herbal tea", "jasmine tea", "[+ add a custom tea]"]

  /** `App::default()`. */
  const Initial: AppState := AppState(false, 0)

  /** The poll that carries a press of `q`. */
  const QuitPress: Polled := Ready(Key(Char('q')))

  /** The row the list highlights: `selected` clamped to the last menu index. */
  function HighlightIndex(selected: nat): (r: nat)
    ensures r < |Teas|
    ensures r <= selected
    ensures r == selected || r == |Teas| - 1
  {
    if selected < |Teas| - 1 then selected else |Teas| - 1
  }

  /** `select_previous`: one row up, staying at 0 at the top. */
  function SelectPrevious(s: AppState): (r: AppState)
    ensures r.exit == s.exit
    ensures s.selected == 0 ==> r.selected == 0
    ensures s.selected > 0 ==> r.selected + 1 == s.selected
  {
    if s.selected > 0 then s.(selected := s.selected - 1) else s
  }

  /** `select_next`: one row down, with no upper bound. */
  function SelectNext(s: AppState): (r: AppState)
    ensures r.exit == s.exit
    ensures r.selected == s.selected + 1
  {
    s.(selected := s.selected + 1)
  }

  /** The `match key.code` of `handle_events`. */
  function HandleKey(s: AppState, k: KeyCode): (r: AppState)
    ensures r.exit <==> s.exit || k == Char('q')
    ensures k == Up ==> r == SelectPrevious(s)
    ensures k == Down ==> r == SelectNext(s)
    ensures k != Up && k != Down ==> r.selected == s.selected
  {
    match k
    case Char('q') => s.(exit := true)
    case Up => SelectPrevious(s)
    case Down => SelectNext(s)
    case _ => s
  }

  /** The state change of one `handle_events` call. */
  function Step(s: AppState, p: Polled): (r: AppState)
    ensures r.exit <==> s.exit || p == QuitPress
    ensures !(p.Ready? && p.event.Key?) ==> r == s
    ensures p.Ready? && p.event.Key? ==> r == HandleKey(s, p.event.code)
  {
    match p
    case Ready(Key(k)) => HandleKey(s, k)
    case _ => s
  }

  /** The polls that end the loop: `q`, and an I/O error propagated by `?`. */
  predicate StopsLoop(p: Polled)
  {
    p == QuitPress || p == ReadError
  }

  /** The loop of `run`, fed one poll per iteration: draw, handle the event,
    * break if `exit` is set. An I/O error returns at once, before the state
    * changes; running out of polls means the loop is still going. */
  function Run(s: AppState, input: seq<Polled>): (r: Outcome)
    requires !s.exit
    decreases |input|
    ensures r.iterations == |r.frames| <= |input|
    ensures forall i :: 0 <= i < |r.frames| ==> r.frames[i] < |Teas|
    ensures |r.frames| > 0 ==> r.frames[0] == HighlightIndex(s.selected)
    ensures r.ending == Exited <==> r.final.exit
    ensures r.ending == Running ==> r.iterations == |input|
    ensures r.ending == Running ==> forall i :: 0 <= i < |input| ==> !StopsLoop(input[i])
    ensures r.ending != Running ==> r.iterations > 0
    ensures r.ending == Exited ==> input[r.iterations - 1] == QuitPress
    ensures r.ending == IoFailed ==> input[r.iterations - 1] == ReadError
    ensures r.ending != Running ==> forall i :: 0 <= i < r.iterations - 1 ==> !StopsLoop(input[i])
  {
    if input == [] then
      Outcome(s, 0, [], Running)
    else
      var frame := HighlightIndex(s.selected);
      var next := Step(s, input[0]);
      if input[0] == ReadError then
        Outcome(s, 1, [frame], IoFailed)
      else if next.exit then
        Outcome(next, 1, [frame], Exited)
      else
        var rest := Run(next, input[1..]);
        Outcome(rest.final, rest.iterations + 1, [frame] + rest.frames, rest.ending)
  }

  /** `n` copies of the same poll. */
  function Repeat(p: Polled, n: nat): (r: seq<Polled>)
    ensures |r| == n
    ensures forall i :: 0 <= i < n ==> r[i] == p
  {
    if n == 0 then [] else [p] + Repeat(p, n - 1)
  }

  lemma RepeatTail(p: Polled, n: nat)
    requires n > 0
    ensures Repeat(p, n)[1..] == Repeat(p, n - 1)
  {
  }

  /** One iteration that neither fails nor exits, followed by the rest of the loop. */
  lemma RunContinues(s: AppState, input: seq<Polled>)
    requires !s.exit && input != [] && input[0] != ReadError && !Step(s, input[0]).exit
    ensures var rest := Run(Step(s, input[0]), input[1..]);
      Run(s, input) == Outcome(rest.final, rest.iterations + 1, [HighlightIndex(s.selected)] + rest.frames, rest.ending)
  {
  }

  /** Every Down adds exactly one to `selected`, with no upper clamp, while
    * the highlight stops at the last row. */
  lemma {:induction false} DownsAccumulate(s: AppState, n: nat)
    requires !s.exit
    ensures var r := Run(s, Repeat(Ready(Key(Down)), n));
      && r.final == AppState(false, s.selected + n)
      && r.ending == Running
      && |r.frames| == n
      && forall i :: 0 <= i < n ==> r.frames[i] == HighlightIndex(s.selected + i)
    decreases n
  {
    var input := Repeat(Ready(Key(Down)), n);
    if n == 0 {
      assert input == [];
    } else {
      var next := AppState(false, s.selected + 1);
      RepeatTail(Ready(Key(Down)), n);
      RunContinues(s, input);
      DownsAccumulate(next, n - 1);
      var r, rest := Run(s, input), Run(next, Repeat(Ready(Key(Down)), n - 1));
      assert r.frames == [HighlightIndex(s.selected)] + rest.frames;
      forall i | 0 <= i < n ensures r.frames[i] == HighlightIndex(s.selected + i) {
        if i > 0 {
          assert r.frames[i] == rest.frames[i - 1];
        }
      }
    }
  }

  /** Every Up subtracts one from `selected` until it reaches 0, where it stays. */
  lemma {:induction false} UpsSaturate(s: AppState, n: nat)
    requires !s.exit
    ensures Run(s, Repeat(Ready(Key(Up)), n)).final
      == AppState(false, if n <= s.selected then s.selected - n else 0)
    ensures Run(s, Repeat(Ready(Key(Up)), n)).ending == Running
    decreases n
  {
    if n > 0 {
      RepeatTail(Ready(Key(Up)), n);
      UpsSaturate(SelectPrevious(s), n - 1);
    }
  }

  /** A poll the dispatch ignores: a timeout, a non-key event, or any key
    * other than `q`, Up and Down (Enter included). */
  predicate Ignored(p: Polled)
  {
    match p
    case Timeout => true
    case ReadError => false
    case Ready(Key(k)) => k != Char('q') && k != Up && k != Down
    case Ready(NonKey) => true
  }

  /** Ignored polls leave the state alone and the same row highlighted. */
  lemma {:induction false} IgnoredInputChangesNothing(s: AppState, input: seq<Polled>)
    requires !s.exit
    requires forall i :: 0 <= i < |input| ==> Ignored(input[i])
    ensures Run(s, input).final == s
    ensures Run(s, input).ending == Running
    ensures forall i :: 0 <= i < |Run(s, input).frames| ==> Run(s, input).frames[i] == HighlightIndex(s.selected)
    decreases |input|
  {
    if input != [] {
      assert Ignored(input[0]);
      assert Step(s, input[0]) == s;
      IgnoredInputChangesNothing(s, input[1..]);
    }
  }

  /** The first `q`, when nothing before it stops the loop, ends the loop in
    * that same iteration with `exit` set. */
  lemma QuitEndsLoop(s: AppState, input: seq<Polled>, k: nat)
    requires !s.exit
    requires k < |input| && input[k] == QuitPress
    requires forall i :: 0 <= i < k ==> !StopsLoop(input[i])
    ensures Run(s, input).ending == Exited
    ensures Run(s, input).final.exit
    ensures Run(s, input).iterations == k + 1
  {
    var r := Run(s, input);
    assert StopsLoop(input[k]);
    if r.iterations - 1 < k {
      assert StopsLoop(input[r.iterations - 1]);
    }
  }

  /** Without a `q` among the polls, `exit` is never set. */
  lemma NoQuitNoExit(s: AppState, input: seq<Polled>)
    requires !s.exit
    requires forall i :: 0 <= i < |input| ==> input[i] != QuitPress
    ensures !Run(s, input).final.exit
  {
  }

  /** From the initial state: Down, Down, `q` highlights rows 0, 1, 2 and exits
    * with the third entry selected. */
  lemma DownDownQuit()
    ensures Run(Initial, [Ready(Key(Down)), Ready(Key(Down)), QuitPress])
      == Outcome(AppState(true, 2), 3, [0, 1, 2], Exited)
  {
    var input := [Ready(Key(Down)), Ready(Key(Down)), QuitPress];
    assert input[1..] == [Ready(Key(Down)), QuitPress];
    assert input[1..][1..] == [QuitPress];
    assert Run(AppState(false, 2), [QuitPress]) == Outcome(AppState(true, 2), 1, [2], Exited);
    RunContinues(AppState(false, 1), input[1..]);
    RunContinues(Initial, input);
  }

  /** After seven Downs from the start, `selected` is 7, past the last row;
    * the highlight shows row 4, and a following Up does not move it. */
  lemma OvershootHidesUp()
    ensures Run(Initial, Repeat(Ready(Key(Down)), 7)).final.selected == 7
    ensures HighlightIndex(SelectPrevious(Run(Initial, Repeat(Ready(Key(Down)), 7)).final).selected)
      == |Teas| - 1
  {
    DownsAccumulate(Initial, 7);
  }
}
