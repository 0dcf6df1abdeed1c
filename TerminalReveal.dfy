/**
 * The terminal reveal effect: once in view, a command line `$ <command>` is typed one
 * character per interval tick behind a blinking cursor; when typing is done the interval
 * stops and, after a short pause, the cursor goes away and the wrapped content appears.
 * Each interval callback is one `Tick`, the pause's callback is `RevealTimeout`.
 */
module TerminalReveal {

  /** The command the component types when none is given. */
  const DefaultCommand: string := "cat"

  /** The line being typed: `$ ${command}`. */
  function FullCommand(command: string): (line: string)
    ensures |line| == |command| + 2 && line[..2] == "$ " && line[2..] == command
  {
    "$ " + command
  }

  class TerminalReveal {
    const fullCommand: string
    var inView: bool
    var started: bool
    var running: bool
    var revealPending: bool
    var currentIndex: nat
    var typedCommand: string
    var showCursor: bool
    var showContent: bool

    ghost predicate Valid()
      reads this
    {
      && currentIndex <= |fullCommand| + 1
      && typedCommand == fullCommand[..if currentIndex == 0 then 0 else currentIndex - 1]
      && (started ==> inView)
      && (!started ==> !running && currentIndex == 0)
      && (started && !running ==> currentIndex == |fullCommand| + 1)
      && (revealPending ==> started && !running)
      && (showContent <==> !showCursor)
      && (showContent ==> started && !running && !revealPending)
    }

    constructor (command: string := DefaultCommand)
      ensures Valid()
      ensures fullCommand == FullCommand(command)
      ensures typedCommand == "" && showCursor && !showContent && !inView && !started
    {
      fullCommand := FullCommand(command);
      inView, started, running, revealPending := false, false, false, false;
      currentIndex := 0;
      typedCommand := "";
      showCursor, showContent := true, false;
    }

    /** The element scrolls into view (observed once). */
    method EnterView()
      requires Valid()
      modifies this`inView
      ensures Valid() && inView
    {
      inView := true;
    }

    /** The start delay has passed: the typing interval is set up. */
    method Start()
      requires Valid() && inView && !started
      modifies this`started, this`running
      ensures Valid() && started && running && currentIndex == 0
    {
      started, running := true, true;
    }

    /**
     * One interval callback: while `currentIndex <= length` it shows the first
     * `currentIndex` characters and moves on by one; after that it clears the interval and
     * schedules the reveal. The tick that stops is the one after `length + 1` typing ticks.
     */
    method Tick()
      requires Valid() && running
      modifies this`currentIndex, this`typedCommand, this`running, this`revealPending
      ensures Valid()
      ensures old(currentIndex) <= |fullCommand| ==>
                && running && currentIndex == old(currentIndex) + 1
                && typedCommand == fullCommand[..old(currentIndex)]
      ensures old(currentIndex) > |fullCommand| ==>
                !running && revealPending && typedCommand == fullCommand && currentIndex == old(currentIndex)
      ensures !running <==> old(currentIndex) == |fullCommand| + 1
    {
      if currentIndex <= |fullCommand| {
        typedCommand := fullCommand[..currentIndex];
        currentIndex := currentIndex + 1;
      } else {
        running := false;
        revealPending := true;
      }
    }

    /** The pause after typing has passed: the cursor goes and the content shows. */
    method RevealTimeout()
      requires Valid() && revealPending
      modifies this`showCursor, this`showContent, this`revealPending
      ensures Valid() && !showCursor && showContent && typedCommand == fullCommand
    {
      showCursor, showContent := false, true;
      revealPending := false;
    }
  }

  /**
   * Typing from the start: after `k <= length + 1` ticks the typed line is the command's
   * first `k - 1` characters, so after `length + 1` ticks it is the whole command, and the
   * content is still hidden; the next tick stops the interval.
   */
  method TypeAll(command: string) returns (t: TerminalReveal)
    ensures t.Valid() && t.typedCommand == FullCommand(command) && !t.running && t.revealPending
    ensures !t.showContent && t.showCursor
  {
    t := new TerminalReveal(command);
    t.EnterView();
    t.Start();
    var n := |t.fullCommand| + 1;
    for k := 0 to n
      invariant t.Valid() && t.running && t.currentIndex == k && t.fullCommand == FullCommand(command)
      invariant !t.showContent && t.showCursor && !t.revealPending
    {
      t.Tick();
    }
    t.Tick();
  }
}
