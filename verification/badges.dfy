/** The status badges of the manager pages, as appearance, colour and label. */
module Badges {
  import opened Types
  import opened Encoding

  datatype Badge = Badge(appearance: string, color: string, text: string)

  /** `getStatusBadge(status)` on the manager dashboard. */
  function StatusBadge(t: TodayStatus): (b: Badge)
    ensures b.text == "Checked In" <==> t == CheckedIn
    ensures b.text == "Checked Out" <==> t == CheckedOut
    ensures b.text == "Not Started" <==> t == NotStarted
    ensures b.color == "success" <==> t == CheckedIn
  {
    match t
    case CheckedIn => Badge("filled", "success", "Checked In")
    case CheckedOut => Badge("tint", "brand", "Checked Out")
    case NotStarted => Badge("outline", "subtle", "Not Started")
  }

  /** The status column of the reports table: in progress while the record is open. */
  function ShiftBadge(r: TimeRecord): (b: Badge)
    ensures b.text == "In Progress" <==> r.IsOpen()
    ensures b.text == "Completed" <==> !r.IsOpen()
  {
    if r.checkOutTime.None? then Badge("filled", "success", "In Progress")
    else Badge("tint", "brand", "Completed")
  }

  /** The word of each approval label, after its symbol. */
  function ApprovalWord(a: Option<ApprovalStatus>): string {
    match a
    case Some(Approved) => "Approved"
    case Some(Rejected) => "Rejected"
    case Some(Pending) => "Pending"
    case Some(SyncFailed) => "Sync Failed"
    case None => "Not Set"
  }

  /** The symbol each approval label evidently means: check, cross, hourglass, warning sign
      and em dash, as the other pages of the application write them. */
  function ApprovalSymbol(a: Option<ApprovalStatus>): (c: char)
    ensures 0x800 <= c as int <= 0xFFFF
  {
    match a
    case Some(Approved) => '\U{2713}'
    case Some(Rejected) => '\U{2717}'
    case Some(Pending) => '\U{23F3}'
    case Some(SyncFailed) => '\U{26A0}'
    case None => '\U{2014}'
  }

  /** The three characters the reports page stores in place of each symbol. */
  function StoredSymbol(a: Option<ApprovalStatus>): string {
    match a
    case Some(Approved) => "\U{201A}\U{00FA}\U{00EC}"
    case Some(Rejected) => "\U{201A}\U{00FA}\U{00F3}"
    case Some(Pending) => "\U{201A}\U{00E8}\U{2265}"
    case Some(SyncFailed) => "\U{201A}\U{00F6}\U{2020}"
    case None => "\U{201A}\U{00C4}\U{00EE}"
  }

  /** The approval column of the reports table as the page renders it: each label starts
      with the three stored characters instead of its symbol. */
  function ApprovalBadgeAsWritten(a: Option<ApprovalStatus>): (b: Badge)
    ensures b.appearance == ApprovalBadge(a).appearance && b.color == ApprovalBadge(a).color
    ensures b.text == "\U{201A}\U{00C4}\U{00EE} Not Set" <==> a.None?
  {
    var text := StoredSymbol(a) + " " + ApprovalWord(a);
    assert text[..3] == StoredSymbol(a) && text[1] == StoredSymbol(a)[1];
    assert a.None? ==> text == "\U{201A}\U{00C4}\U{00EE} Not Set";
    ApprovalBadge(a).(text := text)
  }

  /** The approval column with the symbols the labels evidently mean; a record without a
      status shows "Not Set". */
  function ApprovalBadge(a: Option<ApprovalStatus>): (b: Badge)
    ensures b.color == "success" <==> a == Some(Approved)
    ensures b.color == "danger" <==> a == Some(Rejected) || a == Some(SyncFailed)
    ensures b.appearance == "filled" <==> a == Some(Approved) || a == Some(Rejected)
    ensures b.text == "\U{2014} Not Set" <==> a.None?
  {
    var text := [ApprovalSymbol(a)] + " " + ApprovalWord(a);
    assert text[0] == ApprovalSymbol(a);
    match a
    case Some(Approved) => Badge("filled", "success", text)
    case Some(Rejected) => Badge("filled", "danger", text)
    case Some(Pending) => Badge("tint", "warning", text)
    case Some(SyncFailed) => Badge("outline", "danger", text)
    case None => Badge("ghost", "subtle", text)
  }

  /** Each stored label is the intended one with its leading symbol's UTF-8 bytes read as
      Mac OS Roman, and the rest of the label unchanged. */
  lemma ApprovalLabelsMisDecoded(a: Option<ApprovalStatus>)
    ensures var t := ApprovalBadge(a).text;
      && |t| >= 1 && 0x800 <= t[0] as int <= 0xFFFF && MisDecode(t[0]).Some?
      && ApprovalBadgeAsWritten(a).text == MisDecode(t[0]).value + t[1..]
  {
    ApprovalGlyphsMisDecode();
    var w := " " + ApprovalWord(a);
    assert ApprovalBadge(a).text == [ApprovalSymbol(a)] + w;
    assert ([ApprovalSymbol(a)] + w)[1..] == w;
  }

  /** The five label symbols, each read back as Mac OS Roman. */
  lemma ApprovalGlyphsMisDecode()
    ensures forall a :: MisDecode(ApprovalSymbol(a)) == Some(StoredSymbol(a))
  {
    assert Utf8ThreeBytes('\U{2713}') == [0xE2, 0x9C, 0x93];
    assert Utf8ThreeBytes('\U{2717}') == [0xE2, 0x9C, 0x97];
    assert Utf8ThreeBytes('\U{23F3}') == [0xE2, 0x8F, 0xB3];
    assert Utf8ThreeBytes('\U{26A0}') == [0xE2, 0x9A, 0xA0];
    assert Utf8ThreeBytes('\U{2014}') == [0xE2, 0x80, 0x94];
  }

  /** Each status has a badge of its own: the badge tells the status back. */
  lemma StatusBadgeInjective(t: TodayStatus, u: TodayStatus)
    ensures StatusBadge(t) == StatusBadge(u) <==> t == u
  {
  }

  lemma ApprovalBadgeAsWrittenInjective(a: Option<ApprovalStatus>, b: Option<ApprovalStatus>)
    ensures ApprovalBadgeAsWritten(a).text == ApprovalBadgeAsWritten(b).text <==> a == b
  {
    if ApprovalBadgeAsWritten(a).text == ApprovalBadgeAsWritten(b).text {
      assert StoredSymbol(a) == ApprovalBadgeAsWritten(a).text[..3];
      assert StoredSymbol(b) == ApprovalBadgeAsWritten(b).text[..3];
    }
  }

  lemma ApprovalBadgeInjective(a: Option<ApprovalStatus>, b: Option<ApprovalStatus>)
    ensures ApprovalBadge(a).text == ApprovalBadge(b).text <==> a == b
  {
    if ApprovalBadge(a).text == ApprovalBadge(b).text {
      assert ApprovalSymbol(a) == ApprovalBadge(a).text[0];
      assert ApprovalSymbol(b) == ApprovalBadge(b).text[0];
    }
  }
}
