// `App` of brew buddy as an object: its two fields are updated in place by
// the selection methods and the key dispatch, and `Run` is the main loop.
// Each method is proved against the functions of module Menu.

module BrewBuddy {
  import opened Menu

  /** What `handle_events` returns: `Ok(())`, or the I/O error of poll or read. */
  datatype IoResult = Ok | Err

  class App {
    var exit: bool
    var selected: nat

    /** `App::default()`: not exiting, first row selected. */
    constructor ()
      ensures exit == false && selected == 0
      ensures State() == Initial
    {
      exit := false;
      selected := 0;
    }

    /** The fields as a value of the specification. */
    function State(): AppState
      reads this
    {
      AppState(exit, selected)
    }

    /** `select_previous`: decrement only above 0. */
    method SelectPrevious()
      modifies this
      ensures exit == old(exit)
      ensures old(selected) == 0 ==> selected == 0
      ensures old(selected) > 0 ==> selected == old(selected) - 1
      ensures State() == Menu.SelectPrevious(old(State()))
    {
      if selected > 0 {
        selected := selected - 1;
      }
    }

    /** `select_next`: increment with no upper bound. */
    method SelectNext()
      modifies this
      ensures exit == old(exit)
      ensures selected == old(selected) + 1
      ensures State() == Menu.SelectNext(old(State()))
    {
      selected := selected + 1;
    }

    /** `handle_events`, given what poll and read returned. An error leaves
      * the fields unchanged; `q` sets `exit`, Up and Down move the selection,
      * and everything else, Enter included, does nothing. */
    method HandleEvents(polled: Polled) returns (result: IoResult)
      modifies this
      ensures result == Err <==> polled == ReadError
      ensures old(exit) ==> exit
      ensures State() == Step(old(State()), polled)
    {
      result := Ok;
      match polled {
        case ReadError =>
          result := Err;
        case Timeout =>
        case Ready(NonKey) =>
        case Ready(Key(k)) =>
          match k {
            case Char('q') => exit := true;
            case Up => SelectPrevious();
            case Down => SelectNext();
            case _ =>
          }
      }
    }

    /** The part of `draw` that depends on the state: the highlighted row. */
    method Draw() returns (highlight: nat)
      ensures highlight < |Teas|
      ensures highlight == HighlightIndex(selected)
    {
      // the source's `self.selected.min(teas.len() - 1)`, written out here;
      // the ensures ties it to the specification function
      highlight := if selected < |Teas| - 1 then selected else |Teas| - 1;
    }

    /** `run`: draw, handle one poll, and break once `exit` is set; an I/O
      * error returns at once. Fed a finite sequence of polls; when they run
      * out without a `q` or an error, the loop is still running. The terminal
      * is restored only on the `Exited` path. */
    method Run(input: seq<Polled>) returns (iterations: nat, frames: seq<nat>, ending: Ending)
      requires !exit
      modifies this
      ensures Outcome(State(), iterations, frames, ending) == Menu.Run(old(State()), input)
      ensures ending == Exited <==> exit
    {
      ghost var start := State();
      iterations, frames, ending := 0, [], Running;
      while iterations < |input|
        invariant iterations <= |input|
        invariant !exit
        invariant var rest := Menu.Run(State(), input[iterations..]);
          Menu.Run(start, input)
            == Outcome(rest.final, iterations + rest.iterations, frames + rest.frames, rest.ending)
        decreases |input| - iterations
      {
        ghost var before := State();
        var highlight := Draw();
        frames := frames + [highlight];
        var result := HandleEvents(input[iterations]);
        iterations := iterations + 1;
        if result == Err {
          ending := IoFailed;
          return;
        }
        if exit {
          ending := Exited;
          return;
        }
        RunContinues(before, input[iterations - 1..]);
        assert input[iterations - 1..][1..] == input[iterations..];
      }
      assert input[iterations..] == [];
    }
  }
}
