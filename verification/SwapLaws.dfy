/** What becomes of a bitmap that a menu shows, and what each event does to the menus. */
module SwapLaws {
  import opened Options
  import opened SwapModel

  /** The bitmap that whoever asks for one gets: the one that waits to be shown, or else the one that is free for longest. */
  function Next(c: Chain): Bitmap
    requires c.show.Some? || c.free != []
  {
    if c.show.Some? then c.show.value else c.free[0]
  }

  /** What is free then. */
  function Rest(c: Chain): seq<Bitmap>
    requires c.show.Some? || c.free != []
  {
    if c.show.Some? then c.free else c.free[1..]
  }

  /** The innermost menu runs. */
  predicate Running(s: State) {
    s.menus != [] && !s.menus[|s.menus| - 1].waiting
  }

  function Top(s: State): Menu
    requires s.menus != []
  {
    s.menus[|s.menus| - 1]
  }

  /** All menus but the innermost stay. */
  predicate OnlyTop(s: State, t: State, m: Menu)
    requires s.menus != []
  {
    t.menus == s.menus[..|s.menus| - 1] + [m]
  }

  lemma Last(menus: seq<Menu>, m: Menu)
    requires menus != []
    ensures menus[|menus| - 1 := m] == menus[..|menus| - 1] + [m]
  {
  }

  /** Nobody has a bitmap, but there is one to get. */
  lemma Available(s: State)
    requires Ok(s) && Client(s) == None
    ensures s.chain.show.Some? || s.chain.free != []
  {
    GetOk(s.chain);
  }

  /** A menu that waits has no bitmap, nor has one that may open another. */
  lemma WaitsWithout(s: State)
    requires Ok(s) && s.menus != []
    ensures Client(s) == None || (Running(s) && !Top(s).open)
  {
    assert MenuOk(Top(s));
  }

  // ----- events

  /** The display has finished: its bitmap is free again, and what waits to be shown is sent. */
  lemma TransferLaw(s: State)
    requires Ok(s)
    ensures var c := s.chain; var r := Step(s, TransferDone);
            && r.Some? && r.value.menus == s.menus
            && r.value.chain == match c.transfer
                                case Waiting => c
                                case Starting => Chain(c.free, None, if c.show.Some? then Sending(c.show.value) else Waiting)
                                case Sending(b) =>
                                  Chain(c.free + [b], None, if c.show.Some? then Sending(c.show.value) else Waiting)
  {
    hide Ok, MenuOk;
    StepOk(s, TransferDone);
  }

  /** Where a shown bitmap goes: to the display if that is idle, or else it waits. */
  function Shows(c: Chain, free: seq<Bitmap>, b: Bitmap): Chain {
    if c.transfer.Waiting? then Chain(free, None, Sending(b)) else Chain(free, Some(b), c.transfer)
  }

  /** Without menus the clock is shown, with any other bitmap that waits to be shown taken back. */
  lemma ClockLaw(s: State)
    requires Ok(s) && s.menus == []
    ensures s.chain.show.Some? || s.chain.free != []
    ensures Step(s, ShowClock) == Some(State(Shows(s.chain, Rest(s.chain), Next(s.chain)), []))
  {
    hide Ok, MenuOk;
    Available(s);
  }

  /** A menu that is opened has a bitmap and begins at its first entry; the menu below it has none. */
  lemma OpenLaw(s: State)
    requires Ok(s) && (s.menus == [] || (Running(s) && Top(s).open))
    ensures s.chain.show.Some? || s.chain.free != []
    ensures Step(s, OpenMenu)
            == Some(State(Chain(Rest(s.chain), None, s.chain.transfer), s.menus + [Menu(Some(Next(s.chain)), false, 0, 0, false, false)]))
  {
    if s.menus != [] {
      WaitsWithout(s);
    }
    hide Ok, MenuOk;
    Available(s);
  }

  /** The selected entry of an activated menu gives the bitmap back, undrawn, behind those that are free already. */
  lemma EntryLaw(s: State)
    requires Ok(s) && Running(s)
    ensures var m, c, r := Top(s), s.chain, Step(s, Entry);
            && r.Some?
            && if m.entryIndex == m.selected && m.activated
               then m.bitmap.Some? && r.value.chain == Chain(c.free + [m.bitmap.value], c.show, c.transfer)
                    && OnlyTop(s, r.value, Menu(None, false, m.entryIndex + 1, m.selected, true, true))
               else r.value.chain == c && OnlyTop(s, r.value, Menu(m.bitmap, false, m.entryIndex + 1, m.selected, m.activated, false))
  {
    hide Ok, MenuOk;
    StepOk(s, Entry);
    Last(s.menus, Step(s, Entry).value.menus[|s.menus| - 1]);
  }

  /** Editing the selected entry takes the activation, so that it does not activate an entry; removing an entry moves the selection. */
  lemma EditLaw(s: State)
    requires Ok(s) && Running(s)
    ensures var m, edit, remove := Top(s), Step(s, Edit), Step(s, Remove);
            && edit.Some? && edit.value.chain == s.chain
            && OnlyTop(s, edit.value, Menu(m.bitmap, false, m.entryIndex, m.selected, m.activated && m.selected != m.entryIndex, false))
            && remove.Some? && remove.value.chain == s.chain
            && OnlyTop(s, remove.value, Menu(m.bitmap, false, m.entryIndex, m.selected - 1, m.activated, false))
  {
    hide Ok, MenuOk;
    Last(s.menus, Step(s, Edit).value.menus[|s.menus| - 1]);
    Last(s.menus, Step(s, Remove).value.menus[|s.menus| - 1]);
  }

  /** At the end of a pass a menu shows its bitmap and waits, or is drawn again, with its bitmap or with one that it gets. */
  lemma ShowLaw(s: State, scrolled: bool)
    requires Ok(s) && Running(s)
    ensures Top(s).bitmap.Some? || s.chain.show.Some? || s.chain.free != []
    ensures var m, c, r := Top(s), s.chain, Step(s, ShowMenu(scrolled));
            && r.Some?
            && match m.bitmap
               case None =>
                 r.value.chain == Chain(Rest(c), None, c.transfer)
                 && OnlyTop(s, r.value, Menu(Some(Next(c)), false, 0, m.selected, false, false))
               case Some(b) =>
                 if scrolled then r.value.chain == c && OnlyTop(s, r.value, Menu(Some(b), false, 0, m.selected, false, false))
                 else r.value.chain == Shows(c, c.free, b) && OnlyTop(s, r.value, Menu(None, true, 0, m.selected, false, false))
  {
    hide Ok, MenuOk;
    StepOk(s, ShowMenu(scrolled));
    if Client(s) == None {
      Available(s);
    }
    Last(s.menus, Step(s, ShowMenu(scrolled)).value.menus[|s.menus| - 1]);
  }

  /** However a wait ends, the menu has a bitmap to draw into: the one that it has shown, if that has not been sent yet. */
  lemma WakeLaw(s: State, selected: int, activated: bool)
    requires Ok(s) && s.menus != [] && !Running(s)
    ensures s.chain.show.Some? || s.chain.free != []
    ensures var r := Step(s, Wake(selected, activated));
            && r.Some? && r.value.chain == Chain(Rest(s.chain), None, s.chain.transfer)
            && OnlyTop(s, r.value, Menu(Some(Next(s.chain)), false, Top(s).entryIndex, selected, activated, Top(s).open))
  {
    WaitsWithout(s);
    hide Ok, MenuOk;
    Available(s);
    Last(s.menus, Step(s, Wake(selected, activated)).value.menus[|s.menus| - 1]);
  }

  /** A menu ends where it might open another one; events out of place change nothing. */
  lemma ExitLaw(s: State, e: Event)
    ensures Running(s) && Top(s).open ==> Step(s, Exit) == Some(State(s.chain, s.menus[..|s.menus| - 1]))
    ensures e.Exit? && !(Running(s) && Top(s).open) ==> Step(s, e) == Some(s)
    ensures e.OpenMenu? && s.menus != [] && !(Running(s) && Top(s).open) ==> Step(s, e) == Some(s)
    ensures e.ShowClock? && s.menus != [] ==> Step(s, e) == Some(s)
    ensures e.Wake? && (s.menus == [] || Running(s)) ==> Step(s, e) == Some(s)
    ensures (e.Entry? || e.Edit? || e.Remove? || e.ShowMenu?) && !Running(s) ==> Step(s, e) == Some(s)
  {
  }

  // ----- what is shown is sent

  /** The bitmap that a client hands over to be shown. */
  function Handed(s: State, e: Event): Option<Bitmap> {
    if e.ShowClock? && s.menus == [] && (s.chain.show.Some? || s.chain.free != []) then Some(Next(s.chain))
    else if e == ShowMenu(false) && Running(s) then Top(s).bitmap
    else None
  }

  /** A client asks for a bitmap while one waits to be shown. */
  predicate TakesBack(s: State, e: Event) {
    s.chain.show.Some?
    && match e
       case ShowClock => s.menus == []
       case OpenMenu => s.menus == [] || (Running(s) && Top(s).open)
       case ShowMenu(_) => Running(s) && Top(s).bitmap == None
       case Wake(_, _) => s.menus != [] && !Running(s)
       case _ => false
  }

  /** The bitmap that the transfer coroutine begins to send, if any. */
  function Begun(s: State, e: Event, t: State): seq<Bitmap> {
    if t.chain.transfer.Sending? && (e.TransferDone? || !s.chain.transfer.Sending?) then [t.chain.transfer.bitmap] else []
  }

  function AsSeq(o: Option<Bitmap>): seq<Bitmap> {
    match o case None => [] case Some(b) => [b]
  }

  /** What has been handed over and not been taken back. */
  function Kept(s: State, e: Event, shown: seq<Bitmap>): seq<Bitmap> {
    (if TakesBack(s, e) && shown != [] then shown[..|shown| - 1] else shown) + AsSeq(Handed(s, e))
  }

  /** The bitmaps handed over and not taken back, and the bitmaps sent, during a run. */
  function Logs(s: State, events: seq<Event>, shown: seq<Bitmap>, sent: seq<Bitmap>): (seq<Bitmap>, seq<Bitmap>)
    decreases |events|
  {
    if events == [] then (shown, sent)
    else
      match Step(s, events[0])
      case None => (shown, sent)
      case Some(t) =>
        Logs(t, events[1..], Kept(s, events[0], shown), sent + Begun(s, events[0], t))
  }

  lemma KeptSent(s: State, e: Event, shown: seq<Bitmap>, sent: seq<Bitmap>)
    requires Ok(s) && shown == sent + AsSeq(s.chain.show)
    ensures var r := Step(s, e);
            r.Some? && Kept(s, e, shown)
                       == sent + Begun(s, e, r.value) + AsSeq(r.value.chain.show)
  {
    hide Ok, Get, Put, AddEntry;
    StepOk(s, e);
    ExitLaw(s, e);
    match e
    case TransferDone => TransferLaw(s);
    case ShowClock => if s.menus == [] { ClockLaw(s); }
    case OpenMenu => if s.menus == [] || (Running(s) && Top(s).open) { OpenLaw(s); }
    case Entry => if Running(s) { EntryLaw(s); }
    case Edit => if Running(s) { EditLaw(s); }
    case Remove => if Running(s) { EditLaw(s); }
    case ShowMenu(scrolled) => if Running(s) { ShowLaw(s, scrolled); }
    case Wake(selected, activated) => if s.menus != [] && !Running(s) { WakeLaw(s, selected, activated); }
    case Exit =>
  }

  lemma {:induction false} LogsAgree(s: State, events: seq<Event>, shown: seq<Bitmap>, sent: seq<Bitmap>)
    requires Ok(s) && shown == sent + AsSeq(s.chain.show)
    ensures var (a, b) := Logs(s, events, shown, sent);
            Run(s, events).Some? && a == b + AsSeq(Run(s, events).value.chain.show)
    decreases |events|
  {
    hide Ok, Step, Kept, Begun, AsSeq;
    if events != [] {
      KeptSent(s, events[0], shown, sent);
      StepOk(s, events[0]);
      var t := Step(s, events[0]).value;
      LogsAgree(t, events[1..], Kept(s, events[0], shown), sent + Begun(s, events[0], t));
    }
  }

  /**
   * However transfers, menus and the clock interleave, the display is sent exactly what has been handed over to be shown and
   * not been taken back, in that order; only the last of it may still wait.
   */
  lemma ShownIsSent(events: seq<Event>)
    ensures var (shown, sent) := Logs(Initial(), events, [], []); var r := Run(Initial(), events);
            r.Some? && shown == sent + AsSeq(r.value.chain.show)
  {
    var free: seq<Bitmap> := [0, 1];
    assert multiset(free) == multiset{0, 1};
    LogsAgree(Initial(), events, [], []);
  }
}
