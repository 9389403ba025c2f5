/** The main window's bookkeeping that does not draw anything: the recent-files
    list kept in the application settings, the recent-file menu entries built from
    it, and the file-dialog name filters built from the format catalog. */
module MainWindow {

  import opened Wrappers
  import opened Text
  import opened Sorting
  import opened Floptool

  // ---------------------------------------------------------------------------
  //  Recent-file setting values
  // ---------------------------------------------------------------------------

  /** What a recent-file slot remembers. */
  datatype RecentFile = RecentFile(fileName: string, floppyFormatName: string, fileSystemName: string)

  /** A recent file the setting text can carry: the two names are delimited by the
      first two commas, and the file name after them is not empty. */
  predicate WellFormed(rf: RecentFile)
  {
    ',' !in rf.floppyFormatName && ',' !in rf.fileSystemName && rf.fileName != ""
  }

  /** The setting text addRecent writes, "format,filesystem,filename". */
  function SettingValue(rf: RecentFile): string
  {
    rf.floppyFormatName + "," + rf.fileSystemName + "," + rf.fileName
  }

  /** MainWindow::parseRecentFileSettingValue: the text before the first comma, the
      text between the first two commas and everything after the second one; there
      must be two commas and something after the second. */
  function ParseRecentFileSettingValue(settingValue: string): Option<RecentFile>
  {
    match IndexOf(settingValue, ',', 0)
    case None => None
    case Some(firstCommaPos) =>
      match IndexOf(settingValue, ',', firstCommaPos + 1)
      case None => None
      case Some(secondCommaPos) =>
        if secondCommaPos >= |settingValue| - 1 then None
        else
          Some(RecentFile(settingValue[secondCommaPos + 1..],
                          settingValue[..firstCommaPos],
                          settingValue[firstCommaPos + 1..secondCommaPos]))
  }

  /** What parses is a well-formed recent file whose setting text is the input. */
  lemma ParsedIsSettingValue(settingValue: string)
    ensures var r := ParseRecentFileSettingValue(settingValue);
      r.Some? ==> WellFormed(r.value) && SettingValue(r.value) == settingValue
  {
    var r := ParseRecentFileSettingValue(settingValue);
    if r.Some? {
      var firstCommaPos := IndexOf(settingValue, ',', 0).value;
      var secondCommaPos := IndexOf(settingValue, ',', firstCommaPos + 1).value;
      SplitAround(settingValue, secondCommaPos);
      SplitAround(settingValue[..secondCommaPos], firstCommaPos);
      assert settingValue[..secondCommaPos][..firstCommaPos] == r.value.floppyFormatName;
      assert settingValue[..secondCommaPos][firstCommaPos + 1..] == r.value.fileSystemName;
    }
  }

  /** Where the first comma of a setting text is, when the format name has none. */
  lemma FirstCommaAfter(prefix: string, rest: string, from: nat)
    requires from <= |prefix| && ',' !in prefix[from..]
    ensures IndexOf(prefix + "," + rest, ',', from) == Some(|prefix|)
  {
    var s := prefix + "," + rest;
    assert s[|prefix|] == ',';
    assert forall j :: from <= j < |prefix| ==> s[j] == prefix[from..][j - from];
  }

  /** Reading back what addRecent writes gives the same three strings. */
  lemma ParseSettingValue(rf: RecentFile)
    requires WellFormed(rf)
    ensures ParseRecentFileSettingValue(SettingValue(rf)) == Some(rf)
  {
    var s := SettingValue(rf);
    var first := |rf.floppyFormatName|;
    var second := first + 1 + |rf.fileSystemName|;
    assert rf.floppyFormatName[0..] == rf.floppyFormatName;
    FirstCommaAfter(rf.floppyFormatName, rf.fileSystemName + "," + rf.fileName, 0);
    assert s == rf.floppyFormatName + "," + (rf.fileSystemName + "," + rf.fileName);
    var middle := rf.floppyFormatName + "," + rf.fileSystemName;
    assert s == middle + "," + rf.fileName;
    assert middle[first + 1..] == rf.fileSystemName;
    FirstCommaAfter(middle, rf.fileName, first + 1);
    assert s[..first] == rf.floppyFormatName;
    assert s[first + 1..second] == rf.fileSystemName;
    assert s[second + 1..] == rf.fileName;
  }

  /** A setting text parses exactly when it is the text of a well-formed recent file;
      in particular it fails with fewer than two commas or nothing after the second. */
  lemma ParseSucceedsExactlyOnSettingValues(settingValue: string)
    ensures ParseRecentFileSettingValue(settingValue).Some? <==>
      exists rf :: WellFormed(rf) && SettingValue(rf) == settingValue
  {
    ParsedIsSettingValue(settingValue);
    if rf :| WellFormed(rf) && SettingValue(rf) == settingValue {
      ParseSettingValue(rf);
    }
  }

  /** What the caller's three strings hold after parsing: they start empty and are
      only assigned on success. */
  function ParsedOrEmpty(settingValue: string): RecentFile
  {
    match ParseRecentFileSettingValue(settingValue)
    case Some(rf) => rf
    case None => RecentFile("", "", "")
  }

  /** Writing back what was parsed reproduces a text that parsed; a text that did not
      comes back as ",,". */
  lemma RewrittenText(settingValue: string)
    ensures ParseRecentFileSettingValue(settingValue).Some? ==> SettingValue(ParsedOrEmpty(settingValue)) == settingValue
    ensures ParseRecentFileSettingValue(settingValue).None? ==> SettingValue(ParsedOrEmpty(settingValue)) == ",,"
  {
    ParsedIsSettingValue(settingValue);
  }

  // ---------------------------------------------------------------------------
  //  Recent-file slots
  // ---------------------------------------------------------------------------

  /** The number of recent-file menu entries, and of slots in the settings. */
  const RecentCount: nat := 10

  const SettingPrefix: string := "recentfiles/"

  /** MainWindow::recentFileSettingName: the slot's number in decimal after the
      "recentfiles/" group. */
  function RecentFileSettingName(i: nat): string
  {
    SettingPrefix + NatToString(i)
  }

  /** A slot's key is the group followed by digits that read back as the slot number. */
  lemma SettingNameDecimal(i: nat)
    ensures var r := RecentFileSettingName(i);
      |r| > |SettingPrefix| && r[..|SettingPrefix|] == SettingPrefix &&
      (forall k :: |SettingPrefix| <= k < |r| ==> '0' <= r[k] <= '9') &&
      ParseDecimal(r[|SettingPrefix|..]) == i
  {
    ParseNatToString(i);
    assert RecentFileSettingName(i)[|SettingPrefix|..] == NatToString(i);
  }

  /** Different slots are stored under different keys. */
  lemma SettingNamesDistinct(i: nat, j: nat)
    requires i != j
    ensures RecentFileSettingName(i) != RecentFileSettingName(j)
  {
    SettingNameDecimal(i);
    SettingNameDecimal(j);
  }

  /** QSettings::value(...).toString(): a missing key reads as the empty string. */
  function ValueOf(values: map<string, string>, name: string): string
  {
    if name in values then values[name] else ""
  }

  function SlotValue(values: map<string, string>, i: nat): string
  {
    ValueOf(values, RecentFileSettingName(i))
  }

  function SlotEntry(values: map<string, string>, i: nat): RecentFile
  {
    ParsedOrEmpty(SlotValue(values, i))
  }

  /** The slot addRecent stops at, looking from slot i: the first one whose file name
      is `fileName`, or the last slot. */
  function StopSlot(values: map<string, string>, fileName: string, i: nat): (r: nat)
    requires i < RecentCount
    ensures i <= r < RecentCount
    decreases RecentCount - i
  {
    if SlotEntry(values, i).fileName == fileName || i == RecentCount - 1 then i
    else StopSlot(values, fileName, i + 1)
  }

  /** The search passes over the slots before the stop slot: none names the file. */
  lemma {:induction false} StopSlotSkips(values: map<string, string>, fileName: string, i: nat, j: nat)
    requires i <= j < RecentCount && j < StopSlot(values, fileName, i)
    ensures SlotEntry(values, j).fileName != fileName
    decreases j - i
  {
    if i < j {
      StopSlotSkips(values, fileName, i + 1, j);
    }
  }

  /** The stop slot names the file, unless it is the last slot. */
  lemma {:induction false} StopSlotMatches(values: map<string, string>, fileName: string, i: nat)
    requires i < RecentCount && StopSlot(values, fileName, i) < RecentCount - 1
    ensures SlotEntry(values, StopSlot(values, fileName, i)).fileName == fileName
    decreases RecentCount - i
  {
    if SlotEntry(values, i).fileName != fileName {
      StopSlotMatches(values, fileName, i + 1);
    }
  }

  /** The settings after addRecent's loop from slot i on, `carried` being the entry
      to write into slot i: each visited slot receives the entry from the slot before
      it, until the slot that named the file or the last slot. */
  function AddRecentFrom(values: map<string, string>, carried: RecentFile, fileName: string, i: nat): map<string, string>
    decreases RecentCount - i
  {
    if i >= RecentCount then values
    else
      var current := SlotEntry(values, i);
      var written := values[RecentFileSettingName(i) := SettingValue(carried)];
      if current.fileName == fileName then written
      else AddRecentFrom(written, current, fileName, i + 1)
  }

  /** One step of the loop that does not stop at slot i. */
  lemma AddRecentFromUnfold(values: map<string, string>, carried: RecentFile, fileName: string, i: nat)
    requires i < RecentCount - 1 && SlotEntry(values, i).fileName != fileName
    ensures AddRecentFrom(values, carried, fileName, i) ==
      AddRecentFrom(values[RecentFileSettingName(i) := SettingValue(carried)], SlotEntry(values, i), fileName, i + 1)
  {
  }

  /** Writing one slot leaves what another slot reads alone. */
  lemma OtherSlotEntry(values: map<string, string>, i: nat, v: string, j: nat)
    requires i != j
    ensures SlotEntry(values[RecentFileSettingName(i) := v], j) == SlotEntry(values, j)
  {
    SettingNamesDistinct(i, j);
  }

  /** The keys of slots i through stop. */
  function SlotNames(i: nat, stop: nat): set<string>
  {
    set j: nat | i <= j <= stop :: RecentFileSettingName(j)
  }

  /** Writing slot i leaves where the search for the file stops, from i + 1 on, alone. */
  lemma {:induction false} StopSlotFrame(values: map<string, string>, i: nat, v: string, fileName: string, from: nat)
    requires i < from < RecentCount
    ensures StopSlot(values[RecentFileSettingName(i) := v], fileName, from) == StopSlot(values, fileName, from)
    decreases RecentCount - from
  {
    SettingNamesDistinct(i, from);
    if from < RecentCount - 1 {
      StopSlotFrame(values, i, v, fileName, from + 1);
    }
  }

  /** A key that is not one of the slots addRecent's loop visits from slot i keeps its
      value. */
  lemma {:induction false} AddRecentFromElsewhere(values: map<string, string>, carried: RecentFile, fileName: string, i: nat, k: string)
    requires i < RecentCount && k !in SlotNames(i, StopSlot(values, fileName, i))
    ensures var r := AddRecentFrom(values, carried, fileName, i);
      (k in r <==> k in values) && ValueOf(r, k) == ValueOf(values, k)
    decreases RecentCount - i
  {
    var stop := StopSlot(values, fileName, i);
    assert RecentFileSettingName(i) in SlotNames(i, stop);
    var current := SlotEntry(values, i);
    var written := values[RecentFileSettingName(i) := SettingValue(carried)];
    if current.fileName != fileName && i < RecentCount - 1 {
      StopSlotFrame(values, i, SettingValue(carried), fileName, i + 1);
      assert SlotNames(i + 1, stop) <= SlotNames(i, stop);
      AddRecentFromElsewhere(written, current, fileName, i + 1, k);
    } else if current.fileName != fileName {
      assert AddRecentFrom(written, current, fileName, i + 1) == written;
    }
  }

  /** Slot i receives the carried entry. */
  lemma AddRecentFromFirst(values: map<string, string>, carried: RecentFile, fileName: string, i: nat)
    requires i < RecentCount
    ensures SlotValue(AddRecentFrom(values, carried, fileName, i), i) == SettingValue(carried)
  {
    var current := SlotEntry(values, i);
    var written := values[RecentFileSettingName(i) := SettingValue(carried)];
    if current.fileName != fileName && i < RecentCount - 1 {
      var stop := StopSlot(written, fileName, i + 1);
      assert RecentFileSettingName(i) !in SlotNames(i + 1, stop) by {
        forall j: nat | i + 1 <= j <= stop
          ensures RecentFileSettingName(j) != RecentFileSettingName(i)
        {
          SettingNamesDistinct(i, j);
        }
      }
      AddRecentFromElsewhere(written, current, fileName, i + 1, RecentFileSettingName(i));
    } else if current.fileName != fileName {
      assert AddRecentFrom(written, current, fileName, i + 1) == written;
    }
  }

  /** Each later slot up to the stop slot receives the entry of the slot before it. */
  lemma {:induction false} AddRecentFromShift(values: map<string, string>, carried: RecentFile, fileName: string, i: nat, j: nat)
    requires i < RecentCount && i < j <= StopSlot(values, fileName, i)
    ensures SlotValue(AddRecentFrom(values, carried, fileName, i), j) == SettingValue(SlotEntry(values, j - 1))
    decreases RecentCount - i
  {
    StopSlotPast(values, fileName, i, j);
    if j == i + 1 {
      ShiftIntoNext(values, carried, fileName, i, j);
    } else {
      var written := values[RecentFileSettingName(i) := SettingValue(carried)];
      StopSlotFrame(values, i, SettingValue(carried), fileName, i + 1);
      AddRecentFromShift(written, SlotEntry(values, i), fileName, i + 1, j);
      ShiftFurther(values, carried, fileName, i, j);
    }
  }

  /** A slot before the stop slot does not name the file, and the search goes on from
      the next one. */
  lemma StopSlotPast(values: map<string, string>, fileName: string, i: nat, j: nat)
    requires i < RecentCount && i < j <= StopSlot(values, fileName, i)
    ensures SlotEntry(values, i).fileName != fileName && i < RecentCount - 1
    ensures j <= StopSlot(values, fileName, i + 1)
  {
  }

  /** The entry slot i held before the write lands in slot i + 1. */
  lemma ShiftIntoNext(values: map<string, string>, carried: RecentFile, fileName: string, i: nat, j: nat)
    requires i < RecentCount - 1 && SlotEntry(values, i).fileName != fileName && j == i + 1
    ensures SlotValue(AddRecentFrom(values, carried, fileName, i), j) == SettingValue(SlotEntry(values, j - 1))
  {
    var written := values[RecentFileSettingName(i) := SettingValue(carried)];
    AddRecentFromUnfold(values, carried, fileName, i);
    AddRecentFromFirst(written, SlotEntry(values, i), fileName, i + 1);
  }

  /** A slot beyond i + 1 receives, through the rest of the loop, the entry of the slot
      before it, which the write to slot i did not touch. */
  lemma ShiftFurther(values: map<string, string>, carried: RecentFile, fileName: string, i: nat, j: nat)
    requires i + 1 < j && i < RecentCount - 1 && SlotEntry(values, i).fileName != fileName
    requires var written := values[RecentFileSettingName(i) := SettingValue(carried)];
      SlotValue(AddRecentFrom(written, SlotEntry(values, i), fileName, i + 1), j) == SettingValue(SlotEntry(written, j - 1))
    ensures SlotValue(AddRecentFrom(values, carried, fileName, i), j) == SettingValue(SlotEntry(values, j - 1))
  {
    var written := values[RecentFileSettingName(i) := SettingValue(carried)];
    assert AddRecentFrom(values, carried, fileName, i) == AddRecentFrom(written, SlotEntry(values, i), fileName, i + 1) by {
      AddRecentFromUnfold(values, carried, fileName, i);
    }
    assert SlotEntry(written, j - 1) == SlotEntry(values, j - 1) by {
      OtherSlotEntry(values, i, SettingValue(carried), j - 1);
    }
  }

  /** A slot that moves keeps its text when it parsed and becomes ",," otherwise. */
  lemma AddRecentShiftedText(values: map<string, string>, entry: RecentFile, j: nat)
    requires 0 < j <= StopSlot(values, entry.fileName, 0)
    ensures var r := AddRecentFrom(values, entry, entry.fileName, 0);
      (SlotParses(values, j - 1) ==> SlotValue(r, j) == SlotValue(values, j - 1)) &&
      (!SlotParses(values, j - 1) ==> SlotValue(r, j) == ",,")
  {
    AddRecentFromShift(values, entry, entry.fileName, 0, j);
    RewrittenText(SlotValue(values, j - 1));
  }

  /** MainWindow::addRecent on the whole list: the new file goes into slot 0, and the
      slots before the one that named the same file (or all but the last slot) move
      down one, keeping their text when it parsed and becoming ",," when it did not. */
  lemma AddRecentSlots(values: map<string, string>, entry: RecentFile)
    ensures var r := AddRecentFrom(values, entry, entry.fileName, 0);
      var stop := StopSlot(values, entry.fileName, 0);
      SlotValue(r, 0) == SettingValue(entry) &&
      (forall j :: 0 < j <= stop && SlotParses(values, j - 1) ==> SlotValue(r, j) == SlotValue(values, j - 1)) &&
      (forall j :: 0 < j <= stop && !SlotParses(values, j - 1) ==> SlotValue(r, j) == ",,")
  {
    var stop := StopSlot(values, entry.fileName, 0);
    var r := AddRecentFrom(values, entry, entry.fileName, 0);
    AddRecentFromFirst(values, entry, entry.fileName, 0);
    forall j: nat | 0 < j <= stop
      ensures SlotParses(values, j - 1) ==> SlotValue(r, j) == SlotValue(values, j - 1)
      ensures !SlotParses(values, j - 1) ==> SlotValue(r, j) == ",,"
    {
      AddRecentShiftedText(values, entry, j);
    }
  }

  /** addRecent leaves the slots after the stop slot, and every other setting, as they
      were. */
  lemma AddRecentKeepsRest(values: map<string, string>, entry: RecentFile)
    ensures var r := AddRecentFrom(values, entry, entry.fileName, 0);
      var stop := StopSlot(values, entry.fileName, 0);
      (forall j :: stop < j ==> SlotValue(r, j) == SlotValue(values, j)) &&
      (forall k :: k !in SlotNames(0, stop) ==> (k in r <==> k in values) && ValueOf(r, k) == ValueOf(values, k))
  {
    var stop := StopSlot(values, entry.fileName, 0);
    var r := AddRecentFrom(values, entry, entry.fileName, 0);
    forall k | k !in SlotNames(0, stop)
      ensures (k in r <==> k in values) && ValueOf(r, k) == ValueOf(values, k)
    {
      AddRecentFromElsewhere(values, entry, entry.fileName, 0, k);
    }
    forall j: nat | stop < j
      ensures SlotValue(r, j) == SlotValue(values, j)
    {
      forall m: nat | m <= stop
        ensures RecentFileSettingName(m) != RecentFileSettingName(j)
      {
        SettingNamesDistinct(m, j);
      }
    }
  }

  /** After adding a well-formed entry, slot 0 reads back as that entry, so the first
      recent-file menu entry shows. */
  lemma AddRecentShowsEntryFirst(values: map<string, string>, entry: RecentFile)
    requires WellFormed(entry)
    ensures var r := AddRecentFrom(values, entry, entry.fileName, 0);
      ParseRecentFileSettingValue(SlotValue(r, 0)) == Some(entry) && RecentVisible(r, 0)
  {
    AddRecentFromFirst(values, entry, entry.fileName, 0);
    ParseSettingValue(entry);
  }

  predicate SlotParses(values: map<string, string>, j: nat)
  {
    ParseRecentFileSettingValue(SlotValue(values, j)).Some?
  }

  /** Slot i has a visible menu entry: it and every slot before it parse. */
  predicate RecentVisible(values: map<string, string>, i: nat)
  {
    SlotParses(values, i) && (i == 0 || RecentVisible(values, i - 1))
  }

  /** The visible entries form a prefix of the menu: every slot before a visible
      one parses and is visible too. */
  lemma {:induction false} RecentVisiblePrefix(values: map<string, string>, i: nat, j: nat)
    requires i <= j && RecentVisible(values, j)
    ensures SlotParses(values, i) && RecentVisible(values, i)
    decreases j
  {
    if i < j {
      RecentVisiblePrefix(values, i, j - 1);
    }
  }

  /** A menu entry shows slot i as updateRecents leaves it: visible exactly when the
      slot is, and then titled with the slot's file name without its directory;
      a hidden entry keeps the title it had before. */
  predicate ShowsSlot(action: RecentAction, before: RecentAction, values: map<string, string>, i: nat)
  {
    action.visible == RecentVisible(values, i) &&
    (action.visible ==> action.text == FileNamePart(SlotEntry(values, i).fileName)) &&
    (!action.visible ==> action.text == before.text)
  }

  /** QFileInfo::fileName: what follows the last '/' of the path. */
  function FileNamePart(path: string): (r: string)
    ensures '/' !in r
    ensures |r| <= |path| && path[|path| - |r|..] == r
    ensures |r| < |path| ==> path[|path| - |r| - 1] == '/'
  {
    if |path| == 0 then ""
    else if path[|path| - 1] == '/' then ""
    else
      var r := FileNamePart(path[..|path| - 1]) + [path[|path| - 1]];
      assert path[|path| - |r|..] == path[..|path| - 1][|path| - |r|..] + [path[|path| - 1]];
      r
  }

  /** QSettings: persistent string values by key. */
  class Settings {
    var values: map<string, string>

    constructor (values: map<string, string>)
      ensures this.values == values
    {
      this.values := values;
    }

    function Value(name: string): string
      reads this
    {
      ValueOf(values, name)
    }

    method SetValue(name: string, value: string)
      modifies this
      ensures values == old(values)[name := value]
    {
      values := values[name := value];
    }
  }

  /** What one recent-file menu entry shows. */
  datatype RecentAction = RecentAction(text: string, visible: bool)

  class MainWindow {
    const recentActions: array<RecentAction>

    constructor ()
      ensures recentActions.Length == RecentCount && fresh(recentActions)
      ensures forall i :: 0 <= i < RecentCount ==> recentActions[i] == RecentAction("", true)
    {
      recentActions := new RecentAction[RecentCount](_ => RecentAction("", true));
    }

    /** One pass of updateRecents' loop: slot i is read only while no earlier slot
        failed to parse. */
    static method UpdateRecent(settings: Settings, i: nat, atEnd: bool, before: RecentAction)
      returns (action: RecentAction, nowAtEnd: bool)
      requires !atEnd <==> i == 0 || RecentVisible(settings.values, i - 1)
      ensures ShowsSlot(action, before, settings.values, i)
      ensures !nowAtEnd <==> RecentVisible(settings.values, i)
    {
      var text := before.text;
      nowAtEnd := atEnd;
      if !nowAtEnd {
        var settingName := RecentFileSettingName(i);
        var settingValue := settings.Value(settingName);
        var parsed := ParseRecentFileSettingValue(settingValue);
        assert settingValue == SlotValue(settings.values, i);
        nowAtEnd := parsed.None?;
        if !nowAtEnd {
          text := FileNamePart(parsed.value.fileName);
        }
      }
      action := RecentAction(text, !nowAtEnd);
    }

    /** MainWindow::updateRecents: entries show while the slots parse; the first slot
        that does not hides its entry and every later one, whose text is left as it was. */
    method UpdateRecents(settings: Settings)
      requires recentActions.Length == RecentCount
      modifies recentActions
      ensures forall i :: 0 <= i < RecentCount ==> ShowsSlot(recentActions[i], old(recentActions[i]), settings.values, i)
      ensures forall i, j :: 0 <= i <= j < RecentCount && recentActions[j].visible ==> recentActions[i].visible
    {
      ghost var before := recentActions[..];
      var atEnd := false;
      for i := 0 to RecentCount
        invariant !atEnd <==> i == 0 || RecentVisible(settings.values, i - 1)
        invariant forall k :: 0 <= k < i ==> ShowsSlot(recentActions[k], before[k], settings.values, k)
        invariant recentActions[i..] == before[i..]
      {
        var action;
        action, atEnd := UpdateRecent(settings, i, atEnd, recentActions[i]);
        recentActions[i] := action;
      }
      forall i, j | 0 <= i <= j < RecentCount && recentActions[j].visible
        ensures recentActions[i].visible
      {
        RecentVisiblePrefix(settings.values, i, j);
      }
    }

    /** MainWindow::addRecent: rewrites the slots from 0 on, each with the entry the
        previous slot held, until the slot that held the same file name. */
    method AddRecent(settings: Settings, fileName: string, floppyFormatName: string, fileSystemName: string)
      modifies settings
      ensures settings.values == AddRecentFrom(old(settings.values), RecentFile(fileName, floppyFormatName, fileSystemName), fileName, 0)
    {
      var lastFileName, formatName, systemName := fileName, floppyFormatName, fileSystemName;
      var i := 0;
      while i < RecentCount
        invariant i <= RecentCount
        invariant AddRecentFrom(settings.values, RecentFile(lastFileName, formatName, systemName), fileName, i) ==
          AddRecentFrom(old(settings.values), RecentFile(fileName, floppyFormatName, fileSystemName), fileName, 0)
        decreases RecentCount - i
      {
        var settingName := RecentFileSettingName(i);
        var settingValue := settings.Value(settingName);
        var current := ParsedOrEmpty(settingValue);
        ghost var carried := RecentFile(lastFileName, formatName, systemName);
        ghost var before := settings.values;
        assert current == SlotEntry(before, i);
        settings.SetValue(settingName, SettingValue(RecentFile(lastFileName, formatName, systemName)));
        assert settings.values == before[RecentFileSettingName(i) := SettingValue(carried)];
        if current.fileName == fileName {
          assert AddRecentFrom(before, carried, fileName, i) == settings.values;
          return;
        }
        assert AddRecentFrom(before, carried, fileName, i) == AddRecentFrom(settings.values, current, fileName, i + 1);
        lastFileName, formatName, systemName := current.fileName, current.floppyFormatName, current.fileSystemName;
        i := i + 1;
      }
    }
  }

  // ---------------------------------------------------------------------------
  //  File dialog name filters
  // ---------------------------------------------------------------------------

  /** The wildcard for each extension, "*.ext". */
  function Wildcards(extensions: seq<string>): (r: seq<string>)
    ensures |r| == |extensions|
  {
    if extensions == [] then []
    else Wildcards(extensions[..|extensions| - 1]) + ["*." + extensions[|extensions| - 1]]
  }

  /** The wildcard at position n is "*." followed by the n-th extension. */
  lemma {:induction false} WildcardAt(extensions: seq<string>, n: nat)
    requires n < |extensions|
    ensures Wildcards(extensions)[n] == "*." + extensions[n]
    decreases |extensions|
  {
    if n < |extensions| - 1 {
      WildcardAt(extensions[..|extensions| - 1], n);
    }
  }

  /** QString("%1: %2 (%3)").arg(category, description, extensions). */
  function FilterText(categoryName: string, description: string, extensions: string): string
  {
    categoryName + ": " + description + " (" + extensions + ")"
  }

  /** The filter line of one format: "category: description (*.a *.b)". */
  function FilterLine(entry: Named<FloppyFormat>): string
  {
    FilterText(entry.name, entry.item.mameFormat.description, Join(Wildcards(entry.item.fileExtensions), " "))
  }

  /** One filter line per format, in order. */
  function FilterLines(entries: seq<Named<FloppyFormat>>): (r: seq<string>)
    ensures |r| == |entries|
  {
    if entries == [] then []
    else FilterLines(entries[..|entries| - 1]) + [FilterLine(entries[|entries| - 1])]
  }

  /** The line at position n is the filter line of the n-th format. */
  lemma {:induction false} FilterLineAt(entries: seq<Named<FloppyFormat>>, n: nat)
    requires n < |entries|
    ensures FilterLines(entries)[n] == FilterLine(entries[n])
    decreases |entries|
  {
    if n < |entries| - 1 {
      FilterLineAt(entries[..|entries| - 1], n);
    }
  }

  /** The filter list: "All files(*)", then the formats of the catalog in order. */
  function NameFilters(catalog: seq<Category<FloppyFormat>>): (r: seq<string>)
  {
    ["All files(*)"] + FilterLines(FlattenNamed(catalog))
  }

  /** The filter list has "All files(*)" first and then exactly one line per format
      of the flattened catalog, naming the format's category. */
  lemma NameFiltersOnePerFormat(catalog: seq<Category<FloppyFormat>>)
    ensures |NameFilters(catalog)| == 1 + |FlattenNamed(catalog)|
    ensures NameFilters(catalog)[0] == "All files(*)"
    ensures forall n :: 0 <= n < |FlattenNamed(catalog)| ==> NameFilters(catalog)[n + 1] == FilterLine(FlattenNamed(catalog)[n])
  {
    forall n | 0 <= n < |FlattenNamed(catalog)|
      ensures NameFilters(catalog)[n + 1] == FilterLine(FlattenNamed(catalog)[n])
    {
      FilterLineAt(FlattenNamed(catalog), n);
    }
  }

  lemma FilterLinesAppend(entries: seq<Named<FloppyFormat>>, e: Named<FloppyFormat>)
    ensures FilterLines(entries + [e]) == FilterLines(entries) + [FilterLine(e)]
  {
    assert (entries + [e])[..|entries|] == entries;
  }

  /** One more extension extends the pattern by a space, unless it was empty, and
      the new wildcard; the pattern is empty only for no extensions. */
  lemma WildcardStep(fileExtensions: seq<string>, k: nat)
    requires k < |fileExtensions|
    ensures Join(Wildcards(fileExtensions[..k]), " ") == "" <==> k == 0
    ensures Join(Wildcards(fileExtensions[..k + 1]), " ") ==
      (if k == 0 then "" else Join(Wildcards(fileExtensions[..k]), " ") + " ") + "*." + fileExtensions[k]
  {
    var before := Wildcards(fileExtensions[..k]);
    var x := "*." + fileExtensions[k];
    assert fileExtensions[..k + 1][..k] == fileExtensions[..k];
    assert Wildcards(fileExtensions[..k + 1]) == before + [x];
    if k > 0 {
      assert |Join(before, " ")| >= |before[|before| - 1]|;
      JoinAppend(before, " ", x);
      AppendAssociative(Join(before, " ") + " ", "*.", fileExtensions[k]);
    } else {
      assert before + [x] == [x];
    }
  }

  /** The inner loop of buildNameFilters: "*.ext" for each extension, separated by
      single spaces. */
  method ExtensionPattern(fileExtensions: seq<string>) returns (extensions: string)
    ensures extensions == Join(Wildcards(fileExtensions), " ")
  {
    extensions := "";
    for k := 0 to |fileExtensions|
      invariant extensions == Join(Wildcards(fileExtensions[..k]), " ")
    {
      WildcardStep(fileExtensions, k);
      if extensions != "" {
        extensions := extensions + " ";
      }
      extensions := extensions + "*.";
      extensions := extensions + fileExtensions[k];
    }
    assert fileExtensions[..|fileExtensions|] == fileExtensions;
  }

  lemma {:induction false} FilterLinesConcat(a: seq<Named<FloppyFormat>>, b: seq<Named<FloppyFormat>>)
    ensures FilterLines(a + b) == FilterLines(a) + FilterLines(b)
    decreases |b|
  {
    if b == [] {
      assert a + b == a;
    } else {
      var front := b[..|b| - 1];
      var last := b[|b| - 1];
      assert b == front + [last];
      assert a + b == (a + front) + [last];
      FilterLinesConcat(a, front);
      FilterLinesAppend(a + front, last);
      FilterLinesAppend(front, last);
    }
  }

  /** The inner loop of buildNameFilters: the line of every format of one category,
      appended to the list built so far. */
  method AppendCategoryFilters(results: seq<string>, category: Category<FloppyFormat>) returns (r: seq<string>)
    ensures r == results + FilterLines(NamedItems(category))
  {
    r := results;
    assert category.items[..0] == [];
    for j := 0 to |category.items|
      invariant r == results + FilterLines(ConcatMap(category.items[..j], Tag(category.categoryName)))
    {
      var floppyFormat := category.items[j];
      var extensions := ExtensionPattern(floppyFormat.fileExtensions);
      var line := FilterText(category.categoryName, floppyFormat.mameFormat.description, extensions);
      ghost var seen := ConcatMap(category.items[..j], Tag(category.categoryName));
      ghost var entry := Named(category.categoryName, floppyFormat);
      assert ConcatMap(category.items[..j + 1], Tag(category.categoryName)) == seen + [entry] by {
        TagPrefix(category.items, j, category.categoryName);
      }
      assert FilterLines(seen + [entry]) == FilterLines(seen) + [line] by {
        FilterLinesAppend(seen, entry);
      }
      assert r + [line] == results + (FilterLines(seen) + [line]) by {
        AppendAssociative(results, FilterLines(seen), [line]);
      }
      r := r + [line];
    }
    assert category.items[..|category.items|] == category.items;
  }

  /** MainWindow::buildNameFilters: one line per format of every category. */
  method BuildNameFilters(catalog: seq<Category<FloppyFormat>>) returns (results: seq<string>)
    ensures results == NameFilters(catalog)
  {
    results := ["All files(*)"];
    for i := 0 to |catalog|
      invariant results == ["All files(*)"] + FilterLines(FlattenNamed(catalog[..i]))
    {
      ghost var before := results;
      results := AppendCategoryFilters(results, catalog[i]);
      FlattenNamedPrefix(catalog, i);
      FilterLinesConcat(FlattenNamed(catalog[..i]), NamedItems(catalog[i]));
      AppendAssociative(["All files(*)"], FilterLines(FlattenNamed(catalog[..i])), FilterLines(NamedItems(catalog[i])));
    }
    assert catalog[..|catalog|] == catalog;
  }
}
