/** The swap chain with its ring of free bitmaps, and the menu as its client. */
module Menu {
  import opened SwapModel
  import opened Options

  class SwapChain {
    var freeHead: int
    var freeTail: int
    const freeList: array<Bitmap>
    var showList: Option<Bitmap>
    /** Where the transfer coroutine waits. */
    var transfer: Transfer

    ghost predicate Valid()
      reads this
    {
      freeList.Length == 2 && 0 <= freeTail < 2 && freeTail <= freeHead <= freeTail + 2
    }

    /** The ring as a queue. */
    ghost function Free(): (r: seq<Bitmap>)
      requires Valid()
      reads this, freeList
      ensures |r| == freeHead - freeTail
    {
      if freeHead == freeTail then []
      else if freeHead == freeTail + 1 then [freeList[freeTail]]
      else [freeList[freeTail], freeList[1 - freeTail]]
    }

    ghost function Model(): Chain
      requires Valid()
      reads this, freeList
    {
      Chain(Free(), showList, transfer)
    }

    constructor ()
      ensures Valid() && fresh(freeList) && Model() == Initial().chain
    {
      freeHead, freeTail, showList, transfer := 2, 0, None, Starting;
      freeList := new Bitmap[2](i => i);
    }

    method GetBitmap() returns (b: Bitmap)
      requires Valid() && Get(Model()).Some?
      modifies this
      ensures Valid() && Get(old(Model())) == Some((Model(), b))
    {
      if showList.Some? {
        b := showList.value;
        showList := None;
      } else {
        assert freeHead > freeTail;
        b := freeList[freeTail];
        freeTail := freeTail + 1;
        if freeTail == 2 {
          freeTail := 0;
          freeHead := freeHead - 2;
        }
      }
    }

    method PutBitmap(b: Bitmap)
      requires Valid() && Put(Model(), b).Some?
      modifies this`freeHead, freeList
      ensures Valid() && Put(old(Model()), b) == Some(Model())
    {
      assert freeHead < freeTail + 2;
      assert freeHead % 2 == if freeHead == freeTail then freeTail else 1 - freeTail;
      freeList[freeHead % 2] := b;
      freeHead := freeHead + 1;
      assert Free() == old(Free()) + [b];
    }

    method ShowBitmap(b: Bitmap)
      requires Valid() && Show(Model(), b).Some?
      modifies this
      ensures Valid() && Show(old(Model()), b) == Some(Model())
    {
      assert showList == None;
      showList := Some(b);
      if transfer == Waiting {
        Turn();
      }
    }

    /** The transfer coroutine from its loop condition to its next wait. */
    method Turn()
      requires Valid()
      modifies this`showList, this`transfer
      ensures Valid() && Model() == Pump(old(Model()))
    {
      if showList.Some? {
        transfer := Sending(showList.value);
        showList := None;
      } else {
        transfer := Waiting;
      }
    }

    /** The display is ready. */
    method DisplayReady()
      requires Valid() && Transferred(Model()).Some?
      modifies this, freeList
      ensures Valid() && Transferred(old(Model())) == Some(Model())
    {
      if transfer == Waiting {
        return;
      }
      if transfer.Sending? {
        PutBitmap(transfer.bitmap);
      }
      Turn();
    }
  }

  class Menu {
    const swapChain: SwapChain
    var bitmap: Option<Bitmap>
    var entryIndex: nat
    var selected: int
    var activated: bool
    ghost var waiting: bool
    ghost var open: bool

    ghost function Model(): SwapModel.Menu
      reads this
    {
      SwapModel.Menu(bitmap, waiting, entryIndex, selected, activated, open)
    }

    constructor (swapChain: SwapChain)
      requires swapChain.Valid() && Get(swapChain.Model()).Some?
      modifies swapChain
      ensures this.swapChain == swapChain && swapChain.Valid()
      ensures var (c, b) := Get(old(swapChain.Model())).value; swapChain.Model() == c && Model() == NewMenu(b)
    {
      this.swapChain := swapChain;
      entryIndex, selected, activated, waiting, open, bitmap := 0, 0, false, false, false, None;
      new;
      var b := swapChain.GetBitmap();
      bitmap := Some(b);
    }

    /** True if the entry has been activated: its menu then has given the bitmap back. */
    method Entry() returns (activate: bool)
      requires swapChain.Valid() && AddEntry(swapChain.Model(), Model()).Some?
      modifies this, swapChain, swapChain.freeList
      ensures swapChain.Valid() && AddEntry(old(swapChain.Model()), old(Model())) == Some((swapChain.Model(), Model()))
      ensures activate == open
    {
      var isSelected := entryIndex == selected;
      entryIndex := entryIndex + 1;
      activate := isSelected && activated;
      if activate {
        assert bitmap.Some?;
        swapChain.PutBitmap(bitmap.value);
        bitmap := None;
      }
      open := activate;
    }

    method ConsumeActivation()
      modifies this
      ensures Model() == EditEntry(old(Model()))
    {
      if selected == entryIndex {
        activated := false;
      }
      open := false;
    }

    /** Up to the wait, if there is one: a menu that has nothing to show gets a bitmap and is drawn again. */
    method ShowMenu(scrolled: bool) returns (wait: bool)
      requires swapChain.Valid() && ShowPass(swapChain.Model(), Model(), scrolled).Some? && !waiting
      modifies this, swapChain
      ensures swapChain.Valid()
      ensures ShowPass(old(swapChain.Model()), old(Model()), scrolled) == Some((swapChain.Model(), Model()))
      ensures wait == waiting
    {
      var redraw := bitmap == None || scrolled;
      entryIndex, activated, open, wait := 0, false, false, !redraw;
      if !redraw {
        swapChain.ShowBitmap(bitmap.value);
        bitmap, waiting := None, true;
      } else if bitmap == None {
        var b := swapChain.GetBitmap();
        bitmap := Some(b);
      }
    }

    /** The selection follows the wheel unless an entry is edited. */
    method EndWait(delta: int, pressed: bool, editing: bool, entryCount: nat)
      requires swapChain.Valid() && Get(swapChain.Model()).Some? && waiting
      modifies this, swapChain
      ensures swapChain.Valid()
      ensures SwapModel.EndWait(old(swapChain.Model()), old(Model()), selected, pressed) == Some((swapChain.Model(), Model()))
      ensures editing ==> selected == old(selected)
      ensures !editing && entryCount > 0 ==> 0 <= selected < entryCount
      ensures !editing && 0 <= old(selected) + delta < entryCount ==> selected == old(selected) + delta
      ensures !editing && old(selected) + delta < 0 ==> selected == 0
      ensures !editing && old(selected) + delta >= 0 && old(selected) + delta >= entryCount ==> selected == entryCount - 1
    {
      if !editing {
        var s := selected + delta;
        if s < 0 {
          s := 0;
        } else if s >= entryCount {
          s := entryCount - 1;
        }
        selected := s;
      }
      activated := pressed;
      var b := swapChain.GetBitmap();
      bitmap, waiting := Some(b), false;
    }
  }
}
