/** Editing the ROM slots: what was registered stays what counts until a registration succeeds. */
module RomEditor {
  import opened Options
  import ConfigFile
  import RomSelection
  import Texts

  const SLOTS := 8
  const ROWS := 10
  const EXPORT_ROW := 8
  const BACK_ROW := 9
  const PATH_MAX := 1024
  const BROWSER_MAX := 24

  type Slot = ConfigFile.Slot

  const EMPTY := ConfigFile.Slot("", "", "")

  /** A slot of the server; filename may be missing. */
  datatype ServerSlot = ServerSlot(romId: string, saveId: string, filename: string)

  datatype Target = NoEdit | EditRom | EditSave

  datatype Key = Escape | Return | Backspace | Down | Up | Right | Left | F2 | F4 | F5 | OtherKey

  /** The server's answer to a registration. */
  datatype Answer = Refused | NeedsConfirmation | Accepted(romId: string, saveId: string)

  /** What the program finds for a registration: whether it is logged in and the ROM, its header and its hashes can
      be read, whether it is a Game Boy ROM, how long the chosen initial save is (0 also when it cannot be read),
      and whether a first save can be made from the ROM. */
  datatype Files = Files(readable: bool, gameBoy: bool, chosen: nat, generated: bool)

  datatype Action = Nothing | Leave | ToMain | Export | Register | RegisterImport | RegisterDelete

  /** The part of a text that fits a path. */
  function FitPath(s: string): string { Texts.Fit(s, PATH_MAX) }

  /** The text without its last character; continuation bytes of UTF-8 belong to the byte before them. */
  function WithoutLast(s: string): string {
    if s == "" then ""
    else if |s| > 1 && 0x80 <= s[|s| - 1] as int < 0xC0 then WithoutLast(s[..|s| - 1])
    else s[..|s| - 1]
  }

  /** What counts: the confirmed slot where an edit is pending, the slot itself elsewhere. */
  function View(slots: seq<Slot>, confirmed: seq<Slot>, pending: seq<bool>): (view: seq<Slot>)
    requires |slots| == |confirmed| == |pending|
    ensures |view| == |slots|
    ensures forall i | 0 <= i < |view| :: view[i] == if pending[i] then confirmed[i] else slots[i]
  {
    seq(|slots|, i requires 0 <= i < |slots| => if pending[i] then confirmed[i] else slots[i])
  }

  predicate Registered(s: Slot) { s.romId != "" && s.saveId != "" }

  /** A slot as the server has it; an N64 ROM may stay without being there. */
  function Merged(slot: Slot, server: ServerSlot, isN64: string -> bool, folder: string): Slot {
    if server.romId == "" || server.saveId == "" then
      if slot.path != "" && isN64(slot.path) then slot else EMPTY
    else
      ConfigFile.Slot(if server.filename != "" then FitPath(folder + "/" + server.filename) else slot.path, server.romId, server.saveId)
  }

  function AllMerged(slots: seq<Slot>, server: seq<ServerSlot>, isN64: string -> bool, folder: string): (r: seq<Slot>)
    requires |slots| == |server|
    ensures |r| == |slots| && forall i | 0 <= i < |r| :: r[i] == Merged(slots[i], server[i], isN64, folder)
  {
    seq(|slots|, i requires 0 <= i < |slots| => Merged(slots[i], server[i], isN64, folder))
  }

  /** Merging again changes nothing. */
  lemma MergedTwice(slot: Slot, server: ServerSlot, isN64: string -> bool, folder: string)
    ensures var once := Merged(slot, server, isN64, folder); Merged(once, server, isN64, folder) == once
  {
  }

  /** A ROM that was put into a slot but never registered. */
  predicate LocalOnly(s: Slot, isN64: string -> bool) { s.path != "" && !Registered(s) && !isN64(s.path) }

  class Editor {
    const allowImport: bool
    /** Whether the file at a path is an N64 ROM. */
    const isN64: string -> bool
    const romFolder: string
    var slots: seq<Slot>
    var confirmed: seq<Slot>
    var pending: seq<bool>
    var serverSlots: seq<ServerSlot>
    var selected: nat
    var target: Target
    var original: string
    var confirmDelete: bool
    var confirmImport: bool
    var importSlot: int
    var importPath: string
    var browserActive: bool
    var entries: seq<string>
    var browserSelected: nat
    /** The slots last written to the configuration file. */
    var saved: seq<Slot>

    predicate Shape()
      reads this
    {
      && |slots| == |confirmed| == |pending| == |serverSlots| == SLOTS && selected < ROWS
      && (entries != [] ==> browserSelected < |entries|)
    }

    function Counts(): seq<Slot>
      requires Shape()
      reads this
    {
      View(slots, confirmed, pending)
    }

    /** A pending edit differs from what was confirmed in its path only, and a path is only edited
        while its slot is pending. */
    ghost predicate Valid()
      reads this
    {
      && Shape()
      && (forall i {:trigger pending[i]} | 0 <= i < SLOTS && pending[i] :: slots[i].(path := confirmed[i].path) == confirmed[i])
      && (target.EditRom? ==> selected < SLOTS && pending[selected])
      && (target.EditSave? ==> selected < SLOTS)
      && (confirmDelete || confirmImport ==> target.NoEdit?)
    }

    /** The slots that count are untouched, and nothing else was written. */
    twostate predicate Isolated()
      requires old(Shape()) && Shape()
      reads this
    {
      Counts() == old(Counts()) && (saved == old(saved) || saved == Counts())
    }

    constructor (slots: seq<Slot>, allowImport: bool, isN64: string -> bool, romFolder: string)
      requires |slots| == SLOTS
      ensures Valid() && this.slots == slots && Counts() == slots && saved == slots && target == NoEdit
      ensures this.allowImport == allowImport && this.isN64 == isN64 && this.romFolder == romFolder
    {
      this.slots, confirmed, saved := slots, slots, slots;
      this.allowImport, this.isN64, this.romFolder := allowImport, isN64, romFolder;
      pending := seq(SLOTS, _ => false);
      serverSlots := seq(SLOTS, _ => ServerSlot("", "", ""));
      selected, target, original, confirmDelete, confirmImport := 0, NoEdit, "", false, false;
      importSlot, importPath, browserActive, entries, browserSelected := -1, "", false, [], 0;
      new;
      assert Counts() == slots;
    }

    // -------------------------------------------------------------- pending edits

    /** Remember what was confirmed, the first time the slot is edited. */
    method PreserveRegistration(index: nat)
      requires Valid() && index < SLOTS
      modifies `confirmed, `pending
      ensures Valid() && Counts() == old(Counts()) && pending == old(pending)[index := true]
    {
      if !pending[index] {
        confirmed := confirmed[index := slots[index]];
        pending := pending[index := true];
      }
      assert Counts() == old(Counts());
    }

    /** Change the path of a slot whose edit is pending. */
    method SetPath(index: nat, path: string)
      requires Valid() && index < SLOTS && pending[index]
      modifies `slots
      ensures Valid() && Counts() == old(Counts())
      ensures slots == old(slots)[index := old(slots)[index].(path := FitPath(path))]
    {
      slots := slots[index := slots[index].(path := FitPath(path))];
      assert Counts() == old(Counts());
    }

    /** A slot edited back to its confirmed path is no longer pending. */
    method ForgetUnchanged(index: nat)
      requires Valid() && index < SLOTS && !target.EditRom?
      modifies `pending
      ensures Valid() && Counts() == old(Counts())
      ensures pending == if old(pending)[index] && slots[index].path == confirmed[index].path
                         then old(pending)[index := false] else old(pending)
    {
      if pending[index] && slots[index].path == confirmed[index].path {
        pending := pending[index := false];
      }
      assert Counts() == old(Counts());
    }

    /** Give up all edits: the slots are again what counts. */
    method Discard()
      requires Shape()
      modifies `slots, `pending, `importSlot, `importPath
      ensures Shape() && slots == old(Counts()) && Counts() == old(Counts())
      ensures forall i | 0 <= i < SLOTS :: !pending[i]
      ensures importSlot == -1 && importPath == ""
    {
      var i := 0;
      while i < SLOTS
        invariant 0 <= i <= SLOTS && |slots| == |pending| == SLOTS
        invariant forall j | 0 <= j < i :: slots[j] == old(Counts())[j] && !pending[j]
        invariant forall j | i <= j < SLOTS :: slots[j] == old(slots)[j] && pending[j] == old(pending)[j]
      {
        if pending[i] { slots := slots[i := confirmed[i]]; }
        pending := pending[i := false];
        i := i + 1;
      }
      importSlot, importPath := -1, "";
      assert slots == old(Counts());
      assert Counts() == slots;
    }

    // -------------------------------------------------------------- choosing a path

    method ClearImport(index: nat)
      modifies `importSlot, `importPath
    {
      if importSlot == index { importSlot, importPath := -1, ""; }
    }

    method ApplyPath(index: nat, path: string)
      requires Valid() && index < SLOTS
      modifies `confirmed, `pending, `slots, `importSlot, `importPath
      ensures Valid() && Isolated()
      ensures pending[index] && slots == old(slots)[index := old(slots)[index].(path := FitPath(path))]
    {
      PreserveRegistration(index);
      SetPath(index, path);
      ClearImport(index);
    }

    /** Look into the ROM folder. */
    method Scan() returns (found: bool)
      requires Shape()
      modifies `entries, `browserSelected, `browserActive
      ensures Shape() && (found ==> entries != [] && browserActive) && (!found ==> entries == [] && browserActive == old(browserActive))
    {
      entries, browserSelected := [], 0;
      var listed: seq<string> := *;
      found := 0 < |listed| <= BROWSER_MAX;
      if found { entries, browserActive := listed, true; }
    }

    /** Step the selected slot through the ROM folder, from the file it names to the next one. */
    method CycleRom(delta: int)
      requires Valid()
      modifies `entries, `browserSelected, `browserActive, `confirmed, `pending, `slots, `importSlot, `importPath
      ensures Valid() && Isolated() && browserActive == old(browserActive)
      ensures slots == if selected < SLOTS && entries != []
                       then old(slots)[selected := old(slots)[selected].(path :=
                              FitPath(RomSelection.Cycled(entries, old(slots)[selected].path, delta)))]
                       else old(slots)
    {
      if selected >= SLOTS { return; }
      var wasActive := browserActive;
      var found := Scan();
      if !found { return; }
      browserActive := wasActive;
      var current := RomSelection.Search(entries, slots[selected].path);
      var next := current + delta;
      if current < 0 { next := if delta < 0 then |entries| - 1 else 0; }
      if next < 0 { next := |entries| - 1; }
      if next >= |entries| { next := 0; }
      ApplyPath(selected, entries[next]);
    }

    // -------------------------------------------------------------- editing a text

    method BeginEdit(t: Target) returns (ok: bool)
      requires Valid() && target.NoEdit? && !t.NoEdit? && !confirmDelete && !confirmImport
      modifies `target, `original, `confirmed, `pending, `importSlot, `importPath
      ensures Valid() && Isolated() && slots == old(slots)
      ensures ok <==> selected < SLOTS
      ensures ok ==> target == t && original == (if t.EditRom? then slots[selected].path else importPath)
    {
      if selected >= SLOTS { return false; }
      if t.EditRom? {
        ClearImport(selected);
        PreserveRegistration(selected);
      }
      target := t;
      original := if t.EditRom? then slots[selected].path else importPath;
      ok := true;
    }

    /** Put another text in place of the one being edited. */
    method SetText(text: string)
      requires Valid()
      modifies `slots, `importPath
      ensures Valid() && Isolated()
      ensures !target.EditRom? ==> slots == old(slots)
      ensures target.EditRom? ==> slots == old(slots)[selected := old(slots)[selected].(path := FitPath(text))]
      ensures importPath == if target.EditSave? then FitPath(text) else old(importPath)
    {
      if target.EditRom? {
        SetPath(selected, text);
      } else if target.EditSave? {
        importPath := FitPath(text);
      }
    }

    function EditedText(): string
      requires Shape() && (!target.NoEdit? ==> selected < SLOTS)
      reads this
    {
      if target.EditRom? then slots[selected].path else if target.EditSave? then importPath else ""
    }

    /** Typed text goes to the end of what is being edited. */
    method TextInput(text: string)
      requires Valid()
      modifies `slots, `importPath
      ensures Valid() && Isolated()
      ensures slots == if target.EditRom?
                       then old(slots)[selected := old(slots)[selected].(path := FitPath(old(slots)[selected].path + text))] else old(slots)
      ensures importPath == if target.EditSave? then FitPath(old(importPath) + text) else old(importPath)
    {
      if !target.NoEdit? { SetText(EditedText() + text); }
    }

    /** The edit ends; only what counts is ever saved. */
    method FinishEdit()
      requires Valid() && !target.NoEdit?
      modifies this
      ensures Valid() && Isolated() && target == NoEdit && slots == old(slots) && selected == old(selected)
      // an edit back to the confirmed path is none; an import is chosen only with a file
      ensures old(target).EditRom? ==>
                && pending == (if slots[selected].path == old(confirmed)[selected].path then old(pending)[selected := false] else old(pending))
                && importSlot == old(importSlot) && importPath == old(importPath)
      ensures old(target).EditSave? ==>
                && pending == old(pending) && saved == old(saved)
                && ((importSlot == selected && importPath == old(importPath) != "") || (importSlot == -1 && importPath == ""))
    {
      var was := target;
      target := NoEdit;
      if was.EditRom? { ForgetUnchanged(selected); }
      if was.EditSave? {
        var regular: bool := *;
        if importPath == "" || !regular {
          importSlot, importPath := -1, "";
        } else {
          importSlot := selected;
        }
      } else if original == slots[selected].path && Registered(slots[selected]) {
        var works: bool := *;
        if works { saved := Counts(); }
      }
    }

    /** The edit is given up: the text is what it was when it began. */
    method CancelEdit()
      requires Valid() && !target.NoEdit?
      modifies `slots, `importPath, `pending, `target
      ensures Valid() && Isolated() && target == NoEdit
      ensures old(target).EditRom? ==> slots == old(slots)[selected := old(slots)[selected].(path := FitPath(original))]
    {
      SetText(original);
      var was := target;
      target := NoEdit;
      if was.EditRom? { ForgetUnchanged(selected); }
    }

    // -------------------------------------------------------------- keys

    method EditKey(key: Key)
      requires Valid() && !target.NoEdit?
      modifies this
      ensures Valid() && Isolated()
      ensures target == (if key == Escape || key == Return then NoEdit else old(target)) && selected == old(selected)
      ensures key == Escape && old(target).EditRom? ==>
                slots == old(slots)[selected := old(slots)[selected].(path := FitPath(old(original)))]
      ensures key == Backspace && old(target).EditRom? ==>
                slots == old(slots)[selected := old(slots)[selected].(path := FitPath(WithoutLast(old(slots)[selected].path)))]
      ensures key != Escape && key != Backspace ==> slots == old(slots)
    {
      match key
      case Escape => CancelEdit();
      case Return => FinishEdit();
      case Backspace => SetText(WithoutLast(EditedText()));
      case _ =>
    }

    /** The next entry, or the one before, round and round. */
    method StepBrowser(forward: bool)
      requires Shape() && entries != []
      modifies `browserSelected
      ensures Shape()
      ensures forward ==> browserSelected == (old(browserSelected) + 1) % |entries|
      ensures !forward ==> (browserSelected + 1) % |entries| == old(browserSelected)
    {
      if forward {
        browserSelected := (browserSelected + 1) % |entries|;
      } else {
        browserSelected := if browserSelected == 0 then |entries| - 1 else browserSelected - 1;
      }
    }

    method ChooseEntry()
      requires Valid() && target.NoEdit? && entries != []
      modifies `browserActive, `confirmed, `pending, `slots, `importSlot, `importPath
      ensures Valid() && Isolated() && !browserActive
      ensures selected < SLOTS ==>
                slots == old(slots)[selected := old(slots)[selected].(path := FitPath(entries[browserSelected]))]
    {
      browserActive := false;
      if selected < SLOTS { ApplyPath(selected, entries[browserSelected]); }
    }

    method BrowserKey(key: Key)
      requires Valid() && target.NoEdit?
      modifies this
      ensures Valid() && Isolated() && target == NoEdit && selected == old(selected) && entries == old(entries)
      ensures browserActive == (old(browserActive) && !(key == Escape || (key == Return && entries != [])))
      ensures key == Return && entries != [] && selected < SLOTS ==>
                slots == old(slots)[selected := old(slots)[selected].(path := FitPath(entries[browserSelected]))]
      ensures key != Return ==> slots == old(slots)
      ensures entries != [] && (key == Down || key == Right) ==> browserSelected == (old(browserSelected) + 1) % |entries|
      ensures entries != [] && (key == Up || key == Left) ==> (browserSelected + 1) % |entries| == old(browserSelected)
    {
      if key == Escape {
        browserActive := false;
      } else if entries != [] {
        match key
        case Down | Right => StepBrowser(true);
        case Up | Left => StepBrowser(false);
        case Return => ChooseEntry();
        case _ =>
      }
    }

    /** Whether Return on the selected row asks for something. */
    function ReturnAction(): Action
      requires Shape()
      reads this
    {
      if selected == EXPORT_ROW then Export
      else if selected == BACK_ROW then Leave
      else if slots[selected].path == "" then Nothing
      else if Registered(slots[selected]) && !pending[selected] && !(allowImport && importSlot == selected) then Nothing
      else Register
    }

    method ListKey(key: Key) returns (action: Action)
      requires Valid() && target.NoEdit? && !confirmDelete && !confirmImport
      modifies this
      ensures Valid() && Isolated()
      ensures action == if key == Return then old(ReturnAction()) else if key == Escape then Leave else Nothing
      ensures selected == if key == Down then (old(selected) + 1) % ROWS
                          else if key == Up then (old(selected) + ROWS - 1) % ROWS else old(selected)
      ensures target == if key == F2 && selected < SLOTS then EditRom
                        else if key == F5 && allowImport && selected < SLOTS && slots[selected].path != "" && old(importSlot) != selected
                        then EditSave else NoEdit
      ensures key != Left && key != Right ==> slots == old(slots)
    {
      action := Nothing;
      match key
      case Escape => action := Leave;
      case Down => selected := if selected + 1 >= ROWS then 0 else selected + 1;
      case Up => selected := if selected == 0 then ROWS - 1 else selected - 1;
      case Right => CycleRom(1);
      case Left => CycleRom(-1);
      case F2 =>
        if selected < SLOTS {
          var ok := BeginEdit(EditRom);
        }
      case F4 =>
        var found := Scan();
      case F5 => ImportKey();
      case Return => action := ReturnAction();
      case _ =>
    }

    /** Choose a save to import, or take the choice back. */
    method ImportKey()
      requires Valid() && target.NoEdit? && !confirmDelete && !confirmImport
      modifies this
      ensures Valid() && Isolated() && slots == old(slots) && selected == old(selected)
      ensures target == if allowImport && selected < SLOTS && slots[selected].path != "" && old(importSlot) != selected
                        then EditSave else NoEdit
      ensures old(importSlot) == selected && target == NoEdit && allowImport && selected < SLOTS && slots[selected].path != "" ==>
                importSlot == -1
    {
      if !allowImport || selected >= SLOTS || slots[selected].path == "" { return; }
      if importSlot == selected {
        importSlot, importPath := -1, "";
      } else {
        importPath := "";
        var ok := BeginEdit(EditSave);
      }
    }

    /** A key, wherever the editor stands. */
    method HandleKey(key: Key) returns (action: Action)
      requires Valid()
      modifies this
      ensures Valid() && Isolated()
      // a question is answered before anything else, and giving up the deletion gives up all edits
      ensures old(confirmImport) ==>
                && action == (if key == Return then RegisterImport else Nothing)
                && slots == old(slots) && confirmImport == (key != Return && key != Escape)
      ensures !old(confirmImport) && old(confirmDelete) ==>
                && action == (if key == Return then RegisterDelete else Nothing)
                && slots == (if key == Escape then old(Counts()) else old(slots)) && confirmDelete == (key != Escape)
      ensures action == Register ==> old(target).NoEdit? && selected < SLOTS && slots[selected].path != ""
    {
      action := Nothing;
      if confirmImport {
        if key == Escape || key == Return { confirmImport := false; }
        if key == Return { action := RegisterImport; }
        return;
      }
      if confirmDelete {
        if key == Escape {
          confirmDelete := false;
          Discard();
        } else if key == Return {
          action := RegisterDelete;
        }
        return;
      }
      if !target.NoEdit? {
        EditKey(key);
      } else if browserActive {
        BrowserKey(key);
      } else {
        action := ListKey(key);
      }
    }

    // -------------------------------------------------------------- registration

    /** No edit is pending, and what is there counts. */
    ghost predicate Clean()
      reads this
    {
      Shape() && forall i {:trigger pending[i]} | 0 <= i < SLOTS :: !pending[i]
    }

    method Merge()
      requires Clean()
      modifies `slots
      ensures Clean() && slots == AllMerged(old(slots), serverSlots, isN64, romFolder) == Counts()
    {
      var i := 0;
      while i < SLOTS
        invariant 0 <= i <= SLOTS && |slots| == SLOTS
        invariant forall j | 0 <= j < i :: slots[j] == Merged(old(slots)[j], serverSlots[j], isN64, romFolder)
        invariant forall j | i <= j < SLOTS :: slots[j] == old(slots)[j]
      {
        slots := slots[i := Merged(slots[i], serverSlots[i], isN64, romFolder)];
        i := i + 1;
      }
      assert slots == AllMerged(old(slots), serverSlots, isN64, romFolder);
      assert Counts() == slots;
    }

    /** Drop slots that were never registered. */
    method DropLocalOnly() returns (changed: bool)
      requires Clean()
      modifies `slots
      ensures Clean() && Counts() == slots
      ensures forall i | 0 <= i < SLOTS :: slots[i] == if LocalOnly(old(slots)[i], isN64) then EMPTY else old(slots)[i]
      ensures changed <==> slots != old(slots)
    {
      changed := false;
      var i := 0;
      while i < SLOTS
        invariant 0 <= i <= SLOTS && |slots| == SLOTS
        invariant forall j | 0 <= j < i :: slots[j] == if LocalOnly(old(slots)[j], isN64) then EMPTY else old(slots)[j]
        invariant forall j | i <= j < SLOTS :: slots[j] == old(slots)[j]
        invariant changed <==> exists j | 0 <= j < i :: LocalOnly(old(slots)[j], isN64)
      {
        if LocalOnly(slots[i], isN64) {
          slots := slots[i := EMPTY];
          changed := true;
        }
        i := i + 1;
      }
      assert !changed ==> slots == old(slots);
      assert changed ==> exists j | 0 <= j < SLOTS :: slots[j] != old(slots)[j];
      assert Counts() == slots;
    }

    /** Take over what the server has; edits that are pending are rolled back. */
    method Refresh() returns (ok: bool)
      requires Valid() && target.NoEdit?
      modifies `slots, `pending, `importSlot, `importPath, `serverSlots, `saved
      ensures Valid() && (saved == old(saved) || saved == slots)
      ensures ok ==> Clean() && saved == slots
      ensures (slots == old(slots) && pending == old(pending) && saved == old(saved)) ||
              (Clean() && slots == AllMerged(old(Counts()), serverSlots, isN64, romFolder))
    {
      var server: seq<ServerSlot> := *;
      if |server| != SLOTS { return false; }     // no token, or no answer
      serverSlots := server;
      Discard();
      Merge();
      ok := *;
      if ok { saved := Counts(); }
    }

    /** The server has registered the slot: it counts from now on, and all other edits are given up. */
    method Commit(index: nat, romId: string, saveId: string)
      requires Valid() && target.NoEdit? && index < SLOTS
      modifies `slots, `pending, `importSlot, `importPath, `confirmDelete, `confirmImport
      ensures Valid() && Clean()
      ensures slots == old(Counts())[index := old(slots)[index].(romId := romId, saveId := saveId)] == Counts()
      ensures importSlot == -1 && importPath == "" && !confirmDelete && !confirmImport
    {
      confirmDelete := false;
      slots := slots[index := slots[index].(romId := romId, saveId := saveId)];
      pending := pending[index := false];
      assert Counts() == old(Counts())[index := old(slots)[index].(romId := romId, saveId := saveId)];
      Discard();
      confirmImport := false;
    }

    /** The slot to register: the selected one, or the first that waits for it. */
    method SlotToRegister() returns (index: nat)
      requires Shape()
      ensures index <= SLOTS && (selected < SLOTS ==> index == selected)
      ensures selected >= SLOTS && index < SLOTS ==>
                slots[index].path != "" && (pending[index] || slots[index].romId == "")
                && forall j | 0 <= j < index :: slots[j].path == "" || (!pending[j] && slots[j].romId != "")
      ensures index == SLOTS ==> forall j | 0 <= j < SLOTS :: slots[j].path == "" || (!pending[j] && slots[j].romId != "")
    {
      if selected < SLOTS { return selected; }
      index := 0;
      while index < SLOTS && !(slots[index].path != "" && (pending[index] || slots[index].romId == ""))
        invariant index <= SLOTS
        invariant forall j | 0 <= j < index :: slots[j].path == "" || (!pending[j] && slots[j].romId != "")
      {
        index := index + 1;
      }
    }

    predicate Imports(index: nat)
      reads this
    {
      allowImport && importSlot == index
    }

    /** Whether the slot's registration gets as far as the server: an import must be possible and agreed to,
        and its file must be readable and not empty; without one the first save of a Game Boy ROM that the
        server does not have must have been made. */
    predicate MayAsk(index: nat, confirmedImport: bool, files: Files, same: bool)
      requires Shape()
      reads this
    {
      && index < SLOTS && slots[index].path != "" && files.readable
      && (if Imports(index) then !same && confirmedImport && importPath != "" && files.chosen > 0
          else files.gameBoy && !same ==> files.generated)
    }

    /** Check what goes with the ROM. */
    method PrepareSave(index: nat, confirmedImport: bool, files: Files, same: bool) returns (ready: bool)
      requires Valid() && target.NoEdit? && index < SLOTS && slots[index].path != "" && files.readable
      modifies `confirmImport
      ensures Valid() && (ready <==> old(MayAsk(index, confirmedImport, files, same)))
      // the last question is asked, and no other; a refused import takes it back
      ensures confirmImport == if old(Imports(index)) && !ready then !same && !confirmedImport else old(confirmImport)
    {
      if Imports(index) {
        if same { confirmImport := false; return false; }
        if !confirmedImport { confirmImport := true; return false; }
        if importPath == "" || files.chosen == 0 { confirmImport := false; return false; }
      } else if files.gameBoy && !same {
        if !files.generated { return false; }
      }
      ready := true;
    }

    /** Register a slot. Nothing counts before the server has said so; done names the slot when it has.
        same says that the server has this very registration. */
    method ApplyRegistration(confirmedImport: bool, files: Files, same: bool, answer: Answer) returns (done: Option<nat>)
      requires Valid() && target.NoEdit?
      modifies this
      ensures Valid()
      ensures done.None? ==> slots == old(slots) && pending == old(pending) && Counts() == old(Counts()) && saved == old(saved)
      ensures done.Some? ==> done.value < SLOTS && (old(selected) < SLOTS ==> done.value == old(selected))
                             && answer.Accepted? && old(MayAsk(done.value, confirmedImport, files, same))
      ensures done.Some? ==>
                var committed := old(Counts())[done.value := old(slots)[done.value].(romId := answer.romId, saveId := answer.saveId)];
                Clean() && (slots == committed || slots == AllMerged(committed, serverSlots, isN64, romFolder))
      // and a selected slot for which everything is in order is registered, or asked about again
      ensures old(selected) < SLOTS && old(MayAsk(selected, confirmedImport, files, same)) ==>
                (done.Some? <==> answer.Accepted?) && (answer.NeedsConfirmation? ==> confirmDelete && selected == old(selected))
    {
      done := None;
      var index := SlotToRegister();
      if index >= SLOTS || slots[index].path == "" || !files.readable { return; }
      var ready := PrepareSave(index, confirmedImport, files, same);
      if !ready || answer.Refused? { return; }
      if answer.NeedsConfirmation? {
        selected, confirmImport, confirmDelete := index, false, true;
        return;
      }
      done := Some(index);
      CommitAndSync(index, answer.romId, answer.saveId);
    }

    /** What the server has registered is written down, and then the server's slots are fetched. */
    method CommitAndSync(index: nat, romId: string, saveId: string)
      requires Valid() && target.NoEdit? && index < SLOTS
      modifies this
      ensures Valid() && Clean()
      ensures var committed := old(Counts())[index := old(slots)[index].(romId := romId, saveId := saveId)];
              slots == committed || slots == AllMerged(committed, serverSlots, isN64, romFolder)
    {
      Commit(index, romId, saveId);
      var works: bool := *;
      if !works { return; }
      saved := slots;
      var ok := Refresh();
    }

    /** Leaving the screen: edits and unregistered slots are dropped. */
    method LeaveScreen()
      requires Valid() && target.NoEdit?
      modifies this
      ensures Valid() && Clean() && target == NoEdit && Counts() == slots
      ensures forall i | 0 <= i < SLOTS ::
                slots[i] == Merged(if LocalOnly(old(Counts())[i], isN64) then EMPTY else old(Counts())[i], serverSlots[i], isN64, romFolder)
      ensures saved == old(saved) || saved == slots
    {
      Discard();
      var changed := DropLocalOnly();
      Merge();
      if changed {
        var works: bool := *;
        if works { saved := slots; }
      }
      browserActive, confirmDelete, confirmImport := false, false, false;
    }

    // -------------------------------------------------------------- any sequence of events

    /** Keys and typed text, in any order, never change what counts, and nothing else is ever saved. */
    method Edits(keys: seq<(Key, string)>)
      requires Valid() && saved == Counts()
      modifies this
      ensures Valid() && Counts() == old(Counts()) && saved == Counts()
    {
      var i := 0;
      while i < |keys|
        invariant 0 <= i <= |keys| && Valid() && Counts() == old(Counts()) && saved == Counts()
      {
        var action := HandleKey(keys[i].0);
        TextInput(keys[i].1);
        i := i + 1;
      }
    }
  }
}
