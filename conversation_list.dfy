/**
 * The presentation helpers of the conversation list (src/components/chat/conversation-list.tsx):
 * the relative age of the last message, the preview truncation and the sender prefix.
 */
module ConversationList {
  import Text
  import opened UserTypes

  const MsPerMinute: int := 1000 * 60
  const MsPerHour: int := 1000 * 60 * 60
  const MsPerDay: int := MsPerHour * 24

  /** The bucket `formatTime` puts an age in, with the count it shows. */
  datatype Age = Days(n: nat) | Hours(n: nat) | Minutes(n: nat) | JustNow

  /**
   * The bucket of an age of `diff` milliseconds, computed as `formatTime` does: whole hours
   * first, whole days from the whole hours, whole minutes only below an hour (floor division
   * throughout). Negative ages, i.e. timestamps in the future, read as just now.
   */
  function AgeOf(diff: int): (a: Age)
    ensures a.Days? <==> diff >= MsPerDay
    ensures a.Days? ==> a.n == diff / MsPerDay
    ensures a.Hours? <==> MsPerHour <= diff < MsPerDay
    ensures a.Hours? ==> a.n == diff / MsPerHour && 1 <= a.n < 24
    ensures a.Minutes? <==> MsPerMinute <= diff < MsPerHour
    ensures a.Minutes? ==> a.n == diff / MsPerMinute && 1 <= a.n < 60
    ensures a.JustNow? <==> diff < MsPerMinute
  {
    var hours := diff / MsPerHour;
    var days := hours / 24;
    FloorOfFloor(diff);
    if days > 0 then Days(days)
    else if hours > 0 then Hours(hours)
    else
      var minutes := diff / MsPerMinute;
      if minutes > 0 then Minutes(minutes) else JustNow
  }

  /** Whole days counted from whole hours are the whole days of the age itself. */
  lemma FloorOfFloor(diff: int)
    ensures (diff / MsPerHour) / 24 == diff / MsPerDay
  {
    var h := diff / MsPerHour;
    var d := h / 24;
    assert diff == MsPerHour * h + diff % MsPerHour;
    assert h == 24 * d + h % 24;
    assert diff == MsPerDay * d + (MsPerHour * (h % 24) + diff % MsPerHour);
    assert 0 <= MsPerHour * (h % 24) + diff % MsPerHour < MsPerDay;
  }

  /** The label shown for a bucket: the count followed by its unit, or "agora". */
  function Label(a: Age): (text: string)
    ensures text == "agora" <==> a.JustNow?
  {
    match a
    case Days(n) => WithUnit(n, 'd')
    case Hours(n) => WithUnit(n, 'h')
    case Minutes(n) => WithUnit(n, 'm')
    case JustNow => "agora"
  }

  /** A count in decimal followed by a one-letter unit. */
  function WithUnit(n: nat, unit: char): (text: string)
    ensures |text| >= 2 && text[|text| - 1] == unit && text[..|text| - 1] == Text.Decimal(n)
  {
    Text.Decimal(n) + [unit]
  }

  /** Distinct buckets get distinct labels: the label can be read back. */
  lemma LabelInjective(a: Age, b: Age)
    requires Label(a) == Label(b)
    ensures a == b
  {
    if !a.JustNow? && !b.JustNow? {
      Text.DecimalRoundTrip(a.n);
      Text.DecimalRoundTrip(b.n);
    }
  }

  /** `formatTime(date)` read at the moment `now`, both in milliseconds. */
  function FormatTime(now: int, timestamp: int): (shown: string)
    ensures now - timestamp >= MsPerDay ==> shown == Text.Decimal((now - timestamp) / MsPerDay) + ['d']
    ensures MsPerHour <= now - timestamp < MsPerDay ==>
      shown == Text.Decimal((now - timestamp) / MsPerHour) + ['h']
    ensures MsPerMinute <= now - timestamp < MsPerHour ==>
      shown == Text.Decimal((now - timestamp) / MsPerMinute) + ['m']
    ensures now - timestamp < MsPerMinute <==> shown == "agora"
  {
    Label(AgeOf(now - timestamp))
  }

  const DefaultMaxLength: int := 40

  /** "..." as code units. */
  const Ellipsis: seq<Text.CodeUnit> := [0x2E, 0x2E, 0x2E]

  /**
   * `truncateMessage(message, maxLength)` over the message's UTF-16 code units, which is what
   * `length` and `substring` count: the message itself when it fits, otherwise its first
   * `maxLength` code units (none when `maxLength` is negative, as `substring` clamps) and "...".
   */
  function Truncate(message: seq<Text.CodeUnit>, maxLength: int): (r: seq<Text.CodeUnit>)
    ensures |message| <= maxLength ==> r == message
    ensures |message| > maxLength >= 0 ==>
      |r| == maxLength + 3 && r[..maxLength] == message[..maxLength] && r[maxLength..] == Ellipsis
    ensures maxLength < 0 ==> r == Ellipsis
  {
    if |message| > maxLength then
      message[..if maxLength < 0 then 0 else maxLength] + Ellipsis
    else
      message
  }

  /** Truncating a preview again changes nothing. */
  lemma TruncateIdempotent(message: seq<Text.CodeUnit>, maxLength: int)
    ensures Truncate(Truncate(message, maxLength), maxLength) == Truncate(message, maxLength)
  {
    if |message| > maxLength >= 0 {
      var r := Truncate(message, maxLength);
      assert r[..maxLength] + Ellipsis == r;
    }
  }

  /**
   * The cut counts code units, so it can fall inside a surrogate pair: a preview of `maxLength`
   * BMP characters followed by a character above U+FFFF keeps only the pair's high surrogate.
   */
  lemma {:induction false} TruncateSplitsPair(prefix: string, c: char, maxLength: nat)
    requires |prefix| == maxLength
    requires forall i :: 0 <= i < |prefix| ==> prefix[i] as int < 0x1_0000
    requires c as int >= 0x1_0000
    ensures var r := Truncate(Text.Utf16(prefix + [c]), maxLength + 1);
      |r| == maxLength + 4 && Text.IsHighSurrogate(r[maxLength])
  {
    Text.Utf16Append(prefix, [c]);
    assert [c][1..] == [];
    assert Text.Utf16([c]) == Text.EncodeChar(c);
  }

  /** "Você: " precedes the preview exactly when the last message is the signed-in user's. */
  function SenderPrefix(sender: Sender): (prefix: string)
    ensures prefix != [] <==> sender == Me
    ensures prefix != [] ==> prefix == "Você: "
  {
    if sender == Me then "Você: " else ""
  }
}
