/** The two bitmaps of the display on their way between the swap chain, its transfer coroutine and the menus. */
module SwapModel {
  import opened Options

  type Bitmap = x: int | 0 <= x < 2

  /** What the transfer coroutine waits for: the display to be set up, a bitmap to be sent, or a new bitmap. */
  datatype Transfer = Starting | Sending(bitmap: Bitmap) | Waiting

  datatype Chain = Chain(free: seq<Bitmap>, show: Option<Bitmap>, transfer: Transfer)

  // ----- the swap chain; None stands for an assertion that fails

  /** A bitmap that waits to be shown is taken back, otherwise the oldest free one is used. */
  function Get(c: Chain): Option<(Chain, Bitmap)> {
    if c.show.Some? then Some((c.(show := None), c.show.value))
    else if c.free == [] then None
    else Some((c.(free := c.free[1..]), c.free[0]))
  }

  function Put(c: Chain, b: Bitmap): Option<Chain> {
    if |c.free| >= 2 then None else Some(c.(free := c.free + [b]))
  }

  /** The loop of the transfer coroutine up to its next wait. */
  function Pump(c: Chain): Chain {
    match c.show
    case Some(b) => c.(show := None, transfer := Sending(b))
    case None => c.(transfer := Waiting)
  }

  /** Wakes up the transfer coroutine if it waits for a bitmap. */
  function Show(c: Chain, b: Bitmap): Option<Chain> {
    if c.show.Some? then None
    else
      var d := c.(show := Some(b));
      Some(if d.transfer.Waiting? then Pump(d) else d)
  }

  /** The display is set up or has received the bitmap, which becomes free. */
  function Transferred(c: Chain): Option<Chain> {
    match c.transfer
    case Starting => Some(Pump(c))
    case Waiting => Some(c)
    case Sending(b) => match Put(c, b) case None => None case Some(d) => Some(Pump(d))
  }

  // ----- menus

  /** "open" says that an activated entry has just been added, so that a menu may open another one or end. */
  datatype Menu = Menu(bitmap: Option<Bitmap>, waiting: bool, entryIndex: nat, selected: int, activated: bool, open: bool)

  /** The innermost menu is the last one; without menus the clock is shown. */
  datatype State = State(chain: Chain, menus: seq<Menu>)

  datatype Event =
    | TransferDone
    | ShowClock
    | OpenMenu
    | Entry
    | Edit
    | Remove
    | ShowMenu(scrolled: bool)
    | Wake(selected: int, activated: bool)
    | Exit

  function AddEntry(c: Chain, m: Menu): Option<(Chain, Menu)> {
    var n := m.(entryIndex := m.entryIndex + 1, open := false);
    if m.entryIndex == m.selected && m.activated then
      match m.bitmap
      case None => None
      case Some(b) => match Put(c, b) case None => None case Some(d) => Some((d, n.(bitmap := None, open := true)))
    else Some((c, n))
  }

  /** An entry that is edited consumes the activation. */
  function EditEntry(m: Menu): Menu {
    if m.selected == m.entryIndex then m.(activated := false, open := false) else m.(open := false)
  }

  /** Draws the menu again if it has no bitmap or has scrolled; otherwise shows it and waits. */
  function ShowPass(c: Chain, m: Menu, scrolled: bool): Option<(Chain, Menu)> {
    var n := m.(entryIndex := 0, activated := false, open := false);
    match m.bitmap
    case None => (match Get(c) case None => None case Some((d, b)) => Some((d, n.(bitmap := Some(b)))))
    case Some(b) =>
      if scrolled then Some((c, n))
      else match Show(c, b) case None => None case Some(d) => Some((d, n.(bitmap := None, waiting := true)))
  }

  /** The wait ends or is cancelled: either way the menu has a bitmap again. */
  function EndWait(c: Chain, m: Menu, selected: int, activated: bool): Option<(Chain, Menu)> {
    match Get(c)
    case None => None
    case Some((d, b)) => Some((d, m.(bitmap := Some(b), waiting := false, selected := selected, activated := activated)))
  }

  function NewMenu(b: Bitmap): Menu {
    Menu(Some(b), false, 0, 0, false, false)
  }

  /** Replaces the chain and the innermost menu. */
  function Updated(s: State, r: Option<(Chain, Menu)>): Option<State>
    requires s.menus != []
  {
    match r
    case None => None
    case Some((c, m)) => Some(State(c, s.menus[|s.menus| - 1 := m]))
  }

  /** What happens between two waits, or None if an assertion fails; an event out of place changes nothing. */
  function Step(s: State, e: Event): Option<State> {
    if e.TransferDone? then
      match Transferred(s.chain) case None => None case Some(c) => Some(s.(chain := c))
    else if s.menus == [] then
      if e.ShowClock? then
        match Get(s.chain)
        case None => None
        case Some((c, b)) => match Show(c, b) case None => None case Some(d) => Some(s.(chain := d))
      else if e.OpenMenu? then Opened(s)
      else Some(s)
    else
      var m := s.menus[|s.menus| - 1];
      if e.Wake? then if m.waiting then Updated(s, EndWait(s.chain, m, e.selected, e.activated)) else Some(s)
      else if m.waiting then Some(s)
      else
        match e
        case Entry => Updated(s, AddEntry(s.chain, m))
        case Edit => Updated(s, Some((s.chain, EditEntry(m))))
        case Remove => Updated(s, Some((s.chain, m.(selected := m.selected - 1, open := false))))
        case ShowMenu(scrolled) => Updated(s, ShowPass(s.chain, m, scrolled))
        case OpenMenu => if m.open then Opened(s) else Some(s)
        case Exit => if m.open then Some(s.(menus := s.menus[..|s.menus| - 1])) else Some(s)
        case _ => Some(s)
  }

  function Opened(s: State): Option<State> {
    match Get(s.chain)
    case None => None
    case Some((c, b)) => Some(State(c, s.menus + [NewMenu(b)]))
  }

  // ----- the invariant

  function Held<T>(o: Option<T>): multiset<T> {
    match o case None => multiset{} case Some(x) => multiset{x}
  }

  function Sent(t: Transfer): multiset<Bitmap> {
    match t case Sending(b) => multiset{b} case _ => multiset{}
  }

  /** The bitmap of the innermost menu. */
  function Client(s: State): Option<Bitmap> {
    if s.menus == [] then None else s.menus[|s.menus| - 1].bitmap
  }

  /** Each of the two bitmaps is in exactly one place. */
  ghost predicate Partition(c: Chain, client: Option<Bitmap>) {
    multiset(c.free) + Held(c.show) + Sent(c.transfer) + Held(client) == multiset{0, 1}
  }

  /** Only what nobody draws waits to be shown, and no bitmap waits while the transfer coroutine sleeps. */
  ghost predicate ChainOk(c: Chain, client: Option<Bitmap>) {
    Partition(c, client) && (client.Some? ==> c.show == None) && (c.transfer.Waiting? ==> c.show == None)
  }

  /** A menu without bitmap waits, or has been given up by an entry above the ones that follow. */
  ghost predicate MenuOk(m: Menu) {
    && (m.waiting ==> m.bitmap == None)
    && (m.bitmap == None && !m.waiting ==> m.entryIndex > m.selected)
    && (m.open ==> m.bitmap == None && !m.waiting)
  }

  ghost predicate Ok(s: State) {
    && ChainOk(s.chain, Client(s))
    && (forall i :: 0 <= i < |s.menus| ==> MenuOk(s.menus[i]))
    && (forall i :: 0 <= i < |s.menus| - 1 ==> s.menus[i].bitmap == None && !s.menus[i].waiting)
  }

  lemma HeldSize(c: Chain, client: Option<Bitmap>)
    requires Partition(c, client)
    ensures |c.free| + |Held(c.show)| + |Sent(c.transfer)| + |Held(client)| == 2
  {
    assert |multiset(c.free)| == |c.free|;
    assert |multiset(c.free) + Held(c.show) + Sent(c.transfer) + Held(client)| == |multiset{0, 1}|;
  }

  lemma Freed(b: Bitmap, free: seq<Bitmap>)
    ensures multiset(free + [b]) == multiset([b] + free) == multiset(free) + multiset{b}
  {
  }

  /** The transfer coroutine, which holds nothing, takes what waits to be shown. */
  lemma PumpOk(c: Chain, client: Option<Bitmap>)
    requires Partition(c.(transfer := Starting), client) && (client.Some? ==> c.show == None)
    ensures ChainOk(Pump(c), client)
  {
  }

  lemma SentSize(t: Transfer)
    ensures |Sent(t)| <= 1
  {
  }

  lemma GetFree(c: Chain)
    requires Partition(c, None) && c.show == None && c.free != []
    ensures Partition(c.(free := c.free[1..]), Some(c.free[0]))
  {
    hide Sent;
    Freed(c.free[0], c.free[1..]);
    assert c.free == [c.free[0]] + c.free[1..];
  }

  lemma GetShown(c: Chain)
    requires Partition(c, None) && c.show.Some?
    ensures Partition(c.(show := None), c.show)
  {
    hide Sent;
  }

  lemma PutBack(c: Chain, client: Option<Bitmap>)
    requires Partition(c, client) && c.transfer.Sending?
    ensures Partition(c.(free := c.free + [c.transfer.bitmap], transfer := Starting), client)
  {
    Freed(c.transfer.bitmap, c.free);
    hide Held;
  }

  /** Who holds no bitmap can get one. */
  lemma GetOk(c: Chain)
    requires ChainOk(c, None)
    ensures Get(c).Some? && ChainOk(Get(c).value.0, Some(Get(c).value.1))
  {
    HeldSize(c, None);
    hide Partition, Sent;
    if c.show == None {
      SentSize(c.transfer);
      GetFree(c);
    } else {
      GetShown(c);
    }
  }

  lemma PutOk(c: Chain, b: Bitmap)
    requires ChainOk(c, Some(b))
    ensures Put(c, b).Some? && ChainOk(Put(c, b).value, None)
  {
    HeldSize(c, Some(b));
    Freed(b, c.free);
  }

  lemma ShowOk(c: Chain, b: Bitmap)
    requires ChainOk(c, Some(b))
    ensures Show(c, b).Some? && ChainOk(Show(c, b).value, None)
  {
  }

  lemma TransferredOk(c: Chain, client: Option<Bitmap>)
    requires ChainOk(c, client)
    ensures Transferred(c).Some? && ChainOk(Transferred(c).value, client)
  {
    hide Pump, Partition;
    match c.transfer
    case Waiting =>
    case Starting => assert c == c.(transfer := Starting); PumpOk(c, client);
    case Sending(b) =>
      HeldSize(c, client);
      PutBack(c, client);
      PumpOk(c.(free := c.free + [b]), client);
  }

  /** No assertion fails in any step, and the invariant is kept. */
  lemma StepOk(s: State, e: Event)
    requires Ok(s)
    ensures Step(s, e).Some? && Ok(Step(s, e).value)
  {
    hide ChainOk, Get, Put, Show, Transferred;
    if e.TransferDone? {
      TransferredOk(s.chain, Client(s));
    } else if Client(s) == None {
      GetOk(s.chain);
      if s.menus == [] {
        ShowOk(Get(s.chain).value.0, Get(s.chain).value.1);
      }
    } else {
      PutOk(s.chain, Client(s).value);
      ShowOk(s.chain, Client(s).value);
    }
  }

  // ----- runs

  function Run(s: State, events: seq<Event>): Option<State>
    decreases |events|
  {
    if events == [] then Some(s)
    else match Step(s, events[0]) case None => None case Some(t) => Run(t, events[1..])
  }

  lemma {:induction false} RunOk(s: State, events: seq<Event>)
    requires Ok(s)
    ensures Run(s, events).Some? && Ok(Run(s, events).value)
    decreases |events|
  {
    hide Step, Ok;
    if events != [] {
      StepOk(s, events[0]);
      RunOk(Step(s, events[0]).value, events[1..]);
    }
  }

  function Initial(): State {
    State(Chain([0, 1], None, Starting), [])
  }

  /** However transfers and menus interleave, no assertion fails and the bitmaps stay partitioned. */
  lemma ReachableOk(events: seq<Event>)
    ensures var r := Run(Initial(), events);
            r.Some? && Partition(r.value.chain, Client(r.value)) && (r.value.chain.transfer.Waiting? ==> r.value.chain.show == None)
  {
    var free: seq<Bitmap> := [0, 1];
    assert multiset(free) == multiset{0, 1};
    RunOk(Initial(), events);
  }
}
