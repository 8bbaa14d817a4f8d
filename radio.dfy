/** The pure helpers of the radio widget (src/components/windows/Radio.tsx): the clock
    display, the split of a video title into track and artist, the playlist index used when
    a skip did not take, and the guards that turn a button press into a player command. */
module RadioWidget {
  import opened Wrappers

  // ---------------------------------------------------------------------------------------
  // Decimal digits: `Number.prototype.toString` for whole non-negative numbers, and reading
  // a digit string back.

  predicate IsDigit(c: char) { '0' <= c <= '9' }

  /** Every character of `s` is a decimal digit (stated from the last character back, the
      way `Value` reads a numeral). */
  predicate AllDigits(s: string) {
    s == [] || (IsDigit(s[|s| - 1]) && AllDigits(s[..|s| - 1]))
  }

  function DigitChar(d: nat): (c: char)
    requires d < 10
    ensures IsDigit(c) && c as int - '0' as int == d
  {
    ('0' as int + d) as char
  }

  /** The value of one digit; anything else counts as 0. */
  function DigitValue(c: char): (d: nat)
    ensures d < 10
    ensures IsDigit(c) ==> DigitChar(d) == c
  {
    if IsDigit(c) then c as int - '0' as int else 0
  }

  /** The number a digit string denotes, most significant digit first. */
  function Value(s: string): nat
  {
    if s == [] then 0 else Value(s[..|s| - 1]) * 10 + DigitValue(s[|s| - 1])
  }

  /** Digits before and digits after: digits throughout. */
  lemma {:induction false} AllDigitsAppend(a: string, b: string)
    requires AllDigits(a) && AllDigits(b)
    ensures AllDigits(a + b)
    decreases |b|
  {
    if b == [] {
      assert a + b == a;
    } else {
      AllDigitsAppend(a, b[..|b| - 1]);
      assert (a + b)[..|a + b| - 1] == a + b[..|b| - 1];
      assert (a + b)[|a + b| - 1] == b[|b| - 1];
    }
  }

  /** `n.toString()`: the shortest decimal numeral of `n`. */
  function Decimal(n: nat): (s: string)
    ensures |s| >= 1 && AllDigits(s)
    ensures |s| > 1 ==> s[0] != '0'
    ensures n < 10 <==> |s| == 1
    ensures n < 100 <==> |s| <= 2
  {
    if n < 10 then [DigitChar(n)]
    else
      var s := Decimal(n / 10) + [DigitChar(n % 10)];
      assert s[..|s| - 1] == Decimal(n / 10);
      s
  }

  lemma {:induction false} ValueOfDecimal(n: nat)
    ensures Value(Decimal(n)) == n
  {
    if n >= 10 {
      ValueOfDecimal(n / 10);
      var s := Decimal(n);
      assert s[..|s| - 1] == Decimal(n / 10);
    }
  }

  function Zeros(k: nat): (z: string)
    ensures |z| == k && AllDigits(z)
  {
    if k == 0 then []
    else
      var z := Zeros(k - 1) + ['0'];
      assert z[..k - 1] == Zeros(k - 1);
      z
  }

  lemma {:induction false} ValueOfZeros(k: nat)
    ensures Value(Zeros(k)) == 0
  {
    if k > 0 {
      ValueOfZeros(k - 1);
      assert Zeros(k)[..k - 1] == Zeros(k - 1);
    }
  }

  /** Leading zeros do not change the value of a numeral. */
  lemma {:induction false} ValueIgnoresLeadingZeros(k: nat, s: string)
    ensures Value(Zeros(k) + s) == Value(s)
    decreases |s|
  {
    var t := Zeros(k) + s;
    if s == [] {
      ValueOfZeros(k);
      assert t == Zeros(k);
    } else {
      ValueIgnoresLeadingZeros(k, s[..|s| - 1]);
      assert t[..|t| - 1] == Zeros(k) + s[..|s| - 1];
    }
  }

  /** Every character of `Zeros(k)` is the digit zero. */
  lemma {:induction false} ZerosAreZeros(k: nat)
    ensures forall i :: 0 <= i < k ==> Zeros(k)[i] == '0'
  {
    if k > 0 {
      ZerosAreZeros(k - 1);
      assert Zeros(k) == Zeros(k - 1) + ['0'];
    }
  }

  /** `s.padStart(width, '0')`: zeros in front until the string is `width` long. */
  function PadStart(s: string, width: nat): (r: string)
    ensures |r| == if |s| >= width then |s| else width
  {
    if |s| >= width then s else Zeros(width - |s|) + s
  }

  /** The padded string ends with the original one and has only zeros in front of it. */
  lemma PadStartShape(s: string, width: nat)
    ensures var r := PadStart(s, width);
      && r[|r| - |s|..] == s
      && forall i :: 0 <= i < |r| - |s| ==> r[i] == '0'
  {
    if |s| < width {
      ZerosAreZeros(width - |s|);
      var r := PadStart(s, width);
      assert r[|r| - |s|..] == s;
    }
  }

  lemma ValueOfPadStart(s: string, width: nat)
    requires AllDigits(s)
    ensures AllDigits(PadStart(s, width)) && Value(PadStart(s, width)) == Value(s)
  {
    if |s| < width {
      AllDigitsAppend(Zeros(width - |s|), s);
      ValueIgnoresLeadingZeros(width - |s|, s);
    }
  }

  /** A field of the clock: `n.toString().padStart(2, '0')`. */
  function TwoDigits(n: nat): (s: string)
    ensures AllDigits(s) && Value(s) == n
    ensures |s| >= 2
    ensures n < 100 <==> |s| == 2
  {
    ValueOfDecimal(n);
    ValueOfPadStart(Decimal(n), 2);
    PadStart(Decimal(n), 2)
  }

  // ---------------------------------------------------------------------------------------
  // The clock display.

  /** The display of a minute count and a second count: the two padded fields around a
      colon. Each field reads back as its count, and the display is five characters long
      exactly when the minutes fit in two digits. */
  function Clock(minutes: nat, seconds: nat): (r: string)
    requires seconds < 100
    ensures |r| >= 5 && r[|r| - 3] == ':'
    ensures AllDigits(r[..|r| - 3]) && AllDigits(r[|r| - 2..])
    ensures Value(r[..|r| - 3]) == minutes && Value(r[|r| - 2..]) == seconds
    ensures minutes < 100 <==> |r| == 5
  {
    ClockLayout(TwoDigits(minutes), TwoDigits(seconds));
    TwoDigits(minutes) + ":" + TwoDigits(seconds)
  }

  /** A whole number of seconds as whole minutes and remaining seconds:
      `Math.floor(t / 60)` and `Math.floor(t % 60)`, counted out sixty seconds at a time. */
  datatype ClockTime = ClockTime(minutes: nat, seconds: nat)

  function ToClockTime(t: nat): (c: ClockTime)
    ensures c.minutes * 60 + c.seconds == t && c.seconds < 60
    decreases t
  {
    if t < 60 then ClockTime(0, t)
    else
      var c := ToClockTime(t - 60);
      ClockTime(c.minutes + 1, c.seconds)
  }

  /** The minutes and seconds are the quotient and remainder of division by 60. */
  lemma ToClockTimeIsDivision(t: nat)
    ensures ToClockTime(t) == ClockTime(t / 60, t % 60)
  {
    var c := ToClockTime(t);
    DivisionByMinute(t, c.minutes, c.seconds);
  }

  lemma DivisionByMinute(t: nat, q: nat, r: nat)
    requires q * 60 + r == t && r < 60
    ensures q == t / 60 && r == t % 60
  {
  }

  /** `formatTime` for a whole number of seconds: whole minutes and remaining seconds.
      Read back, the display gives the time it was made from. */
  function FormatTime(t: nat): (r: string)
    ensures ParseTime(r) == Some(t)
  {
    var c := ToClockTime(t);
    ClockRoundTrip(c.minutes, c.seconds, t);
    Clock(c.minutes, c.seconds)
  }

  /** The display is a digit field, a colon and a two-digit field, and it is exactly five
      characters long below 100 minutes (6000 seconds). */
  lemma FormatTimeShape(t: nat)
    ensures var r := FormatTime(t);
      && |r| >= 5 && r[|r| - 3] == ':'
      && AllDigits(r[..|r| - 3]) && AllDigits(r[|r| - 2..])
      && (t < 6000 <==> |r| == 5)
  {
    var c := ToClockTime(t);
    ClockShape(c.minutes, c.seconds, t);
  }

  lemma ClockShape(minutes: nat, seconds: nat, t: nat)
    requires seconds < 60 && minutes * 60 + seconds == t
    ensures var r := Clock(minutes, seconds);
      && |r| >= 5 && r[|r| - 3] == ':'
      && AllDigits(r[..|r| - 3]) && AllDigits(r[|r| - 2..])
      && (t < 6000 <==> |r| == 5)
  {
  }

  /** The field before the colon shows the whole minutes and the two digits after it the
      remaining seconds, always below 60: minutes times 60 plus seconds is the time. */
  lemma FormatTimeFields(t: nat)
    ensures var r := FormatTime(t);
      && Value(r[..|r| - 3]) * 60 + Value(r[|r| - 2..]) == t
      && Value(r[|r| - 2..]) < 60
  {
    ParsedFields(FormatTime(t), t);
  }

  /** A string that reads back as `t` has fields that make up `t`. */
  lemma ParsedFields(r: string, t: nat)
    requires ParseTime(r) == Some(t)
    ensures |r| >= 4 && r[|r| - 3] == ':'
    ensures Value(r[..|r| - 3]) * 60 + Value(r[|r| - 2..]) == t && Value(r[|r| - 2..]) < 60
  {
  }

  /** Where the two fields sit in `minutes + ":" + seconds`. */
  lemma ClockLayout(minutes: string, seconds: string)
    requires |minutes| >= 2 && |seconds| == 2
    ensures var r := minutes + ":" + seconds;
      r[|r| - 3] == ':' && r[..|r| - 3] == minutes && r[|r| - 2..] == seconds
  {
    var r := minutes + ":" + seconds;
    assert r[..|r| - 3] == minutes;
    assert r[|r| - 2..] == seconds;
  }

  /** Reads a display back: digits, a colon, and two digits below 60. */
  function ParseTime(s: string): (t: Option<nat>)
  {
    if |s| < 4 || s[|s| - 3] != ':' then None
    else
      var minutes, seconds := s[..|s| - 3], s[|s| - 2..];
      if AllDigits(minutes) && AllDigits(seconds) && Value(seconds) < 60
      then Some(Value(minutes) * 60 + Value(seconds))
      else None
  }

  /** Reading back a clock built from a minute count and a second count below sixty. */
  lemma ClockRoundTrip(minutes: nat, seconds: nat, t: nat)
    requires seconds < 60 && t == minutes * 60 + seconds
    ensures ParseTime(Clock(minutes, seconds)) == Some(t)
  {
  }

  /** Below 100 minutes the display is exactly `mm:ss`. */
  lemma FormatTimeShortForm(t: nat)
    requires t < 6000
    ensures var r := FormatTime(t);
      |r| == 5 && r[2] == ':' && AllDigits(r[..2]) && AllDigits(r[3..])
      && Value(r[..2]) * 60 + Value(r[3..]) == t
  {
    var c := ToClockTime(t);
    ClockShortForm(c.minutes, c.seconds, t);
  }

  lemma ClockShortForm(minutes: nat, seconds: nat, t: nat)
    requires seconds < 60 && minutes * 60 + seconds == t && t < 6000
    ensures var r := Clock(minutes, seconds);
      |r| == 5 && r[2] == ':' && AllDigits(r[..2]) && AllDigits(r[3..])
      && Value(r[..2]) * 60 + Value(r[3..]) == t
  {
  }

  // ---------------------------------------------------------------------------------------
  // Splitting a title: `String.prototype.split` on a separator, and `trim`.

  predicate OccursAt(s: string, sep: string, i: nat) {
    i + |sep| <= |s| && s[i..i + |sep|] == sep
  }

  predicate Contains(s: string, sep: string) {
    exists i: nat :: i <= |s| && OccursAt(s, sep, i)
  }

  /** The first place at or after `from` where `sep` occurs. */
  function FindFrom(s: string, sep: string, from: nat): (r: Option<nat>)
    requires from <= |s|
    ensures r.Some? ==> from <= r.value && OccursAt(s, sep, r.value)
    ensures r.Some? ==> forall j: nat :: from <= j < r.value ==> !OccursAt(s, sep, j)
    ensures r.None? ==> forall j: nat :: from <= j ==> !OccursAt(s, sep, j)
    decreases |s| - from
  {
    if OccursAt(s, sep, from) then Some(from)
    else if from == |s| then None
    else FindFrom(s, sep, from + 1)
  }

  /** The leftmost occurrence of `sep` in `s`. */
  function IndexOf(s: string, sep: string): (r: Option<nat>)
    ensures r.Some? ==> OccursAt(s, sep, r.value) && forall j: nat :: j < r.value ==> !OccursAt(s, sep, j)
    ensures r.None? <==> !Contains(s, sep)
  {
    FindFrom(s, sep, 0)
  }

  /** `s.split(sep)` for a non-empty separator: the pieces between successive leftmost
      occurrences. */
  function Split(s: string, sep: string): (parts: seq<string>)
    requires |sep| > 0
    ensures |parts| >= 1
    ensures |parts| > 1 <==> Contains(s, sep)
    decreases |s|
  {
    match IndexOf(s, sep)
    case None => [s]
    case Some(i) => [s[..i]] + Split(s[i + |sep|..], sep)
  }

  function Join(parts: seq<string>, sep: string): string
    requires |parts| >= 1
  {
    if |parts| == 1 then parts[0] else parts[0] + sep + Join(parts[1..], sep)
  }

  /** Joining the pieces with the separator gives the title back. */
  lemma {:induction false} SplitJoin(s: string, sep: string)
    requires |sep| > 0
    ensures Join(Split(s, sep), sep) == s
    decreases |s|
  {
    match IndexOf(s, sep)
    case None =>
    case Some(i) =>
      var rest := s[i + |sep|..];
      SplitJoin(rest, sep);
      SplitAtFirst(s, sep, i);
      var parts := Split(s, sep);
      assert parts[1..] == Split(rest, sep);
      assert Join(parts, sep) == s[..i] + sep + Join(Split(rest, sep), sep);
  }

  /** Where the first separator sits, the title is the text before it, the separator and
      the text after it. */
  lemma SplitAtFirst(s: string, sep: string, i: nat)
    requires |sep| > 0 && IndexOf(s, sep) == Some(i)
    ensures s == s[..i] + sep + s[i + |sep|..]
    ensures Split(s, sep) == [s[..i]] + Split(s[i + |sep|..], sep)
  {
    assert OccursAt(s, sep, i);
    ThreeSlices(s, i, i + |sep|);
  }

  lemma ThreeSlices(s: string, i: nat, j: nat)
    requires i <= j <= |s|
    ensures s == s[..i] + s[i..j] + s[j..]
  {
    forall k | 0 <= k < |s|
      ensures s[k] == (s[..i] + s[i..j] + s[j..])[k]
    {
    }
  }

  /** No piece of a split contains the separator. */
  lemma {:induction false} SplitPiecesHaveNoSeparator(s: string, sep: string)
    requires |sep| > 0
    ensures forall k :: 0 <= k < |Split(s, sep)| ==> !Contains(Split(s, sep)[k], sep)
    decreases |s|
  {
    match IndexOf(s, sep)
    case None =>
    case Some(i) =>
      var rest := s[i + |sep|..];
      SplitPiecesHaveNoSeparator(rest, sep);
      SplitAtFirst(s, sep, i);
      PieceBeforeFirstHasNoSeparator(s, sep, i);
      var parts := Split(s, sep);
      forall k | 0 <= k < |parts|
        ensures !Contains(parts[k], sep)
      {
        if k > 0 {
          assert parts[k] == Split(rest, sep)[k - 1];
        }
      }
  }

  lemma PieceBeforeFirstHasNoSeparator(s: string, sep: string, i: nat)
    requires |sep| > 0
    requires i <= |s| && forall j: nat :: j < i ==> !OccursAt(s, sep, j)
    ensures !Contains(s[..i], sep)
  {
    forall j: nat | OccursAt(s[..i], sep, j)
      ensures false
    {
      assert s[..i][j..j + |sep|] == s[j..j + |sep|];
      assert OccursAt(s, sep, j);
    }
  }

  /** The white space `trim` removes, by code point: the ECMAScript WhiteSpace and
      LineTerminator characters (tab, line feed, vertical tab, form feed, carriage return,
      space, no-break space, the Unicode space separators, line and paragraph separator,
      and the byte order mark). */
  const WhiteSpaceCodes: seq<int> := [
    0x09, 0x0A, 0x0B, 0x0C, 0x0D, 0x20, 0xA0, 0x1680,
    0x2000, 0x2001, 0x2002, 0x2003, 0x2004, 0x2005, 0x2006, 0x2007, 0x2008, 0x2009, 0x200A,
    0x2028, 0x2029, 0x202F, 0x205F, 0x3000, 0xFEFF]

  predicate Listed(u: int, codes: seq<int>) {
    codes != [] && (codes[0] == u || Listed(u, codes[1..]))
  }

  predicate IsWhiteSpace(c: char) { Listed(c as int, WhiteSpaceCodes) }

  /** Every character of `s` from offset `lo` up to `hi` is white space. */
  predicate WhiteSpaceBetween(s: string, lo: nat, hi: nat)
    requires lo <= hi <= |s|
  {
    forall i :: lo <= i < hi ==> IsWhiteSpace(s[i])
  }

  /** Where the run of white space that starts at offset `i` ends. */
  function SkipLeading(s: string, i: nat): (j: nat)
    requires i <= |s|
    ensures i <= j <= |s| && WhiteSpaceBetween(s, i, j)
    ensures j < |s| ==> !IsWhiteSpace(s[j])
    decreases |s| - i
  {
    if i < |s| && IsWhiteSpace(s[i]) then SkipLeading(s, i + 1) else i
  }

  /** Where the run of white space that ends at offset `j` starts, looking no further back
      than `lo`. */
  function SkipTrailing(s: string, lo: nat, j: nat): (k: nat)
    requires lo <= j <= |s|
    ensures lo <= k <= j && WhiteSpaceBetween(s, k, j)
    ensures lo < k ==> !IsWhiteSpace(s[k - 1])
    decreases j - lo
  {
    if lo < j && IsWhiteSpace(s[j - 1]) then SkipTrailing(s, lo, j - 1) else j
  }

  /** `t` is `s` with the white space at both ends removed, `t` starting at offset `k`. */
  ghost predicate IsTrimOf(t: string, s: string, k: nat) {
    && k + |t| <= |s|
    && t == s[k..k + |t|]
    && WhiteSpaceBetween(s, 0, k) && WhiteSpaceBetween(s, k + |t|, |s|)
    && (t != [] ==> !IsWhiteSpace(t[0]) && !IsWhiteSpace(t[|t| - 1]))
  }

  /** `s.trim()`: the slice between the first and the last character that is not white
      space. */
  function Trim(s: string): (t: string)
    ensures IsTrimOf(t, s, SkipLeading(s, 0))
  {
    var a := SkipLeading(s, 0);
    var b := SkipTrailing(s, a, |s|);
    var t := s[a..b];
    assert t != [] ==> t[0] == s[a] && t[|t| - 1] == s[b - 1];
    t
  }

  /** Trimming twice is trimming once. */
  lemma TrimIdempotent(s: string)
    ensures Trim(Trim(s)) == Trim(s)
  {
    var t := Trim(s);
    assert SkipLeading(t, 0) == 0;
    assert SkipTrailing(t, 0, |t|) == |t|;
    assert t[0..|t|] == t;
  }

  // ---------------------------------------------------------------------------------------
  // Track and artist from the video title (inside `updateTrackInfo`).

  datatype TrackInfo = TrackInfo(track: string, artist: string)

  const TitleSeparator: string := " - "

  /** The artist shown for a title without a separator. */
  const DefaultArtist: string := "Vin Scully the GOAT"

  /** The display for a video title. An empty title (or no video data) leaves the display
      as it was: `None`. Otherwise the first piece of the split is the artist and the second
      the track, both trimmed; a title without a separator is all track, by the default
      artist. */
  function TrackInfoFromTitle(title: string): (r: Option<TrackInfo>)
    ensures r.None? <==> title == ""
    ensures r.Some? && !Contains(title, TitleSeparator) ==> r.value == TrackInfo(Trim(title), DefaultArtist)
    ensures r.Some? && Contains(title, TitleSeparator) ==>
      var parts := Split(title, TitleSeparator);
      r.value == TrackInfo(Trim(parts[1]), Trim(parts[0]))
  {
    if title == "" then None
    else
      var parts := Split(title, TitleSeparator);
      if |parts| > 1 then Some(TrackInfo(Trim(parts[1]), Trim(parts[0])))
      else Some(TrackInfo(Trim(title), DefaultArtist))
  }

  /** What the display shows, in terms of where the separator occurs in the title. */
  lemma TrackInfoFromTitleMeaning(title: string)
    ensures title == "" ==> TrackInfoFromTitle(title).None?
    ensures title != "" && !Contains(title, TitleSeparator) ==>
      TrackInfoFromTitle(title) == Some(TrackInfo(Trim(title), DefaultArtist))
    ensures title != "" && Contains(title, TitleSeparator) ==>
      var i := IndexOf(title, TitleSeparator).value;
      var rest := title[i + |TitleSeparator|..];
      var track := match IndexOf(rest, TitleSeparator)
        case None => rest
        case Some(j) => rest[..j];
      TrackInfoFromTitle(title) == Some(TrackInfo(Trim(track), Trim(title[..i])))
  {
    if title != "" && Contains(title, TitleSeparator) {
      var i := IndexOf(title, TitleSeparator).value;
      var rest := title[i + |TitleSeparator|..];
      assert Split(title, TitleSeparator) == [title[..i]] + Split(rest, TitleSeparator);
    }
  }

  // ---------------------------------------------------------------------------------------
  // Playlist index when a skip did not take (the fallback inside `skipTrack`).

  /** The playlist length the fallback assumes. */
  const PlaylistLength: int := 20

  /** JavaScript's `%`: the remainder takes the sign of the dividend. */
  function JsRemainder(a: int, b: int): (r: int)
    requires b > 0
    ensures a >= 0 ==> 0 <= r < b
    ensures a < 0 ==> -b < r <= 0
    ensures a >= 0 ==> a == a / b * b + r
    ensures a < 0 ==> -a == (-a) / b * b - r
  {
    if a >= 0 then a % b else -((-a) % b)
  }

  /** `(currentIndex + 1) % 20`. */
  function NextIndex(i: int): (r: int)
    ensures -1 <= i ==> 0 <= r < PlaylistLength
    ensures (r - (i + 1)) % PlaylistLength == 0
  {
    JsRemainder(i + 1, PlaylistLength)
  }

  /** `currentIndex === 0 ? 19 : currentIndex - 1`. */
  function PreviousIndex(i: int): (r: int)
    ensures 0 <= i < PlaylistLength ==> 0 <= r < PlaylistLength
    ensures (r - (i - 1)) % PlaylistLength == 0
  {
    if i == 0 then PlaylistLength - 1 else i - 1
  }

  /** On the playlist, the next index and the previous index undo each other. */
  lemma NextPreviousInverse(i: int)
    requires 0 <= i < PlaylistLength
    ensures NextIndex(PreviousIndex(i)) == i
    ensures PreviousIndex(NextIndex(i)) == i
  {
  }

  // ---------------------------------------------------------------------------------------
  // The controls: what each button sends to the player.

  /** The widget state the controls read: whether a player exists, whether it is still
      loading, and whether it is playing. */
  datatype Controls = Controls(hasPlayer: bool, isLoading: bool, isPlaying: bool)

  datatype Direction = Next | Previous

  datatype PlayerCommand = PauseVideo | PlayVideo | NextVideo | PreviousVideo | PlayVideoAt(index: int)

  /** `togglePlay`: nothing without a player or while loading; otherwise pause a playing
      player and start a paused one. */
  function TogglePlay(c: Controls): (r: Option<PlayerCommand>)
    ensures r.None? <==> !c.hasPlayer || c.isLoading
    ensures r == Some(PauseVideo) <==> c.hasPlayer && !c.isLoading && c.isPlaying
    ensures r == Some(PlayVideo) <==> c.hasPlayer && !c.isLoading && !c.isPlaying
  {
    if !c.hasPlayer || c.isLoading then None
    else if c.isPlaying then Some(PauseVideo)
    else Some(PlayVideo)
  }

  /** `skipTrack`: nothing without a player or while loading; otherwise ask the player for
      the next or previous video. */
  function SkipTrack(c: Controls, direction: Direction): (r: Option<PlayerCommand>)
    ensures r.None? <==> !c.hasPlayer || c.isLoading
    ensures r.Some? ==> r.value == if direction == Next then NextVideo else PreviousVideo
  {
    if !c.hasPlayer || c.isLoading then None
    else if direction == Next then Some(NextVideo)
    else Some(PreviousVideo)
  }

  /** The check half a second after a skip: when the player and the widget are still there
      and the index has not moved, jump to the neighbouring index explicitly. */
  function SkipFallback(hasPlayer: bool, mounted: bool, direction: Direction, currentIndex: int, newIndex: int): (r: Option<PlayerCommand>)
    ensures r.Some? <==> hasPlayer && mounted && newIndex == currentIndex
    ensures r.Some? && direction == Next ==> r.value == PlayVideoAt(NextIndex(currentIndex))
    ensures r.Some? && direction == Previous ==> r.value == PlayVideoAt(PreviousIndex(currentIndex))
    ensures r.Some? && 0 <= currentIndex < PlaylistLength ==> 0 <= r.value.index < PlaylistLength
  {
    if !hasPlayer || !mounted || newIndex != currentIndex then None
    else if direction == Next then Some(PlayVideoAt(NextIndex(currentIndex)))
    else Some(PlayVideoAt(PreviousIndex(currentIndex)))
  }
}
