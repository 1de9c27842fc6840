/** The record format of the index file: the id in decimal, one space, the text, one
    newline. The printer is the one Insert uses; the parser is the one readRecordAt uses. */
module RecordCodec {
  import opened Common

  newtype Byte = x: int | 0 <= x < 256

  const NEWLINE: Byte := 10
  const SPACE: Byte := 32
  const PLUS: Byte := 43
  const MINUS: Byte := 45
  const ZERO: Byte := 48
  const NINE: Byte := 57
  const TWO_64: nat := 0x1_0000_0000_0000_0000

  type Text = seq<Byte>

  datatype Record = Record(id: nat, text: Text)

  /** What one Next call came to. `Threw` stands for the exceptions of std::stoull. */
  datatype ReadResult =
    | Delivered(rec: Record)
    | IoError
    | NoNewline
    | NoSpace
    | Threw

  // ----- the printer -----

  /** std::to_string of an unsigned number. */
  function Digits(n: nat): (r: Text)
    ensures |r| >= 1
    ensures forall k :: 0 <= k < |r| ==> IsDigit(r[k])
  {
    var last := [(n % 10 + 48) as Byte];
    if n < 10 then last else Digits(n / 10) + last
  }

  function Line(id: nat, text: Text): (r: Text) {
    Digits(id) + [SPACE] + text + [NEWLINE]
  }

  // ----- the parser -----

  predicate IsDigit(b: Byte) {
    ZERO <= b <= NINE
  }

  /** std::isspace of the C locale. */
  predicate IsBlank(b: Byte) {
    b == SPACE || 9 <= b <= 13
  }

  /** The first position of `b`, or the length when there is none. */
  function Find(s: Text, b: Byte): (r: nat)
    ensures r <= |s|
    ensures r < |s| ==> s[r] == b
    ensures forall k :: 0 <= k < r ==> s[k] != b
  {
    if s == [] then 0 else if s[0] == b then 0 else 1 + Find(s[1..], b)
  }

  function UpToNewline(text: Text): Text {
    text[..Find(text, NEWLINE)]
  }

  function SkipBlanks(s: Text): Text {
    if s != [] && IsBlank(s[0]) then SkipBlanks(s[1..]) else s
  }

  /** The number of leading digits. */
  function DigitRun(s: Text): (r: nat)
    ensures r <= |s|
    ensures forall k :: 0 <= k < r ==> IsDigit(s[k])
    ensures r < |s| ==> !IsDigit(s[r])
  {
    if s != [] && IsDigit(s[0]) then 1 + DigitRun(s[1..]) else 0
  }

  function DigitValue(b: Byte): nat
    requires IsDigit(b)
  {
    b as int - 48
  }

  /** The number that digits stand for. */
  function DecimalValue(digits: Text): nat
    requires forall k :: 0 <= k < |digits| ==> IsDigit(digits[k])
  {
    if digits == [] then 0
    else 10 * DecimalValue(digits[..|digits| - 1]) + DigitValue(digits[|digits| - 1])
  }

  /** The longest run of digits: none, or a value over 64 bits, throws; a minus sign wraps. */
  function Magnitude(u: Text, minus: bool): Option<nat> {
    var run := DigitRun(u);
    var value := DecimalValue(u[..run]);
    if run == 0 || value >= TWO_64 then None
    else if minus then Some((TWO_64 - value) % TWO_64)
    else Some(value)
  }

  function Signed(t: Text): Option<nat> {
    if t != [] && (t[0] == PLUS || t[0] == MINUS) then Magnitude(t[1..], t[0] == MINUS) else Magnitude(t, false)
  }

  /** std::stoull in base 10: blanks, an optional sign, then the longest run of digits. */
  function Stoull(s: Text): Option<nat> {
    Signed(SkipBlanks(s))
  }

  function ParseLine(line: Text): ReadResult {
    var sp := Find(line, SPACE);
    if sp == |line| then NoSpace
    else
      match Stoull(line[..sp])
      case None => Threw
      case Some(id) => Delivered(Record(id, line[sp + 1..]))
  }

  /** What the bytes of `file` from `offset` on read as. */
  function ReadAt(file: Text, offset: nat): ReadResult {
    var rest := if offset <= |file| then file[offset..] else [];
    var nl := Find(rest, NEWLINE);
    if nl == |rest| then NoNewline else ParseLine(rest[..nl])
  }

  // ----- round trip -----

  lemma {:induction false} DigitsValue(n: nat)
    ensures DecimalValue(Digits(n)) == n
  {
    if n >= 10 {
      DigitsValue(n / 10);
      var d := Digits(n);
      assert d[..|d| - 1] == Digits(n / 10);
    } else {
      assert Digits(n)[..0] == [];
    }
  }

  /** The value of ASCII digits, written out: 48 to 57 stand for 0 to 9. */
  ghost predicate IsDecimalOf(d: Text, n: nat) {
    && d != []
    && (forall k :: 0 <= k < |d| ==> 48 <= d[k] <= 57)
    && (|d| > 1 ==> d[0] != 48)
    && (if |d| == 1 then n == d[0] as int - 48
        else n / 10 > 0 && IsDecimalOf(d[..|d| - 1], n / 10) && n % 10 == d[|d| - 1] as int - 48)
  }

  lemma {:induction false} DigitsDecimal(n: nat)
    ensures IsDecimalOf(Digits(n), n)
  {
    if n >= 10 {
      DigitsDecimal(n / 10);
      var d := Digits(n);
      assert d[..|d| - 1] == Digits(n / 10);
      assert d[0] == Digits(n / 10)[0];
    }
  }

  lemma {:induction false} DecimalUnique(n: nat, d: Text)
    requires IsDecimalOf(d, n)
    ensures d == Digits(n)
    decreases |d|
  {
    var last := d[|d| - 1];
    assert d == d[..|d| - 1] + [last];
    if |d| == 1 {
      assert n < 10 && d == [last];
    } else {
      DecimalUnique(n / 10, d[..|d| - 1]);
    }
  }

  /** The id is printed as its one decimal numeral in ASCII without leading zeros. */
  lemma DigitsAreDecimal(n: nat, d: Text)
    ensures IsDecimalOf(d, n) <==> d == Digits(n)
  {
    hide IsDecimalOf, Digits;
    DigitsDecimal(n);
    if IsDecimalOf(d, n) {
      DecimalUnique(n, d);
    }
  }

  /** The record format byte by byte: the decimal id, a space (32), the text, a newline (10). */
  lemma LineFormat(id: nat, text: Text, digits: Text)
    requires IsDecimalOf(digits, id)
    ensures Line(id, text) == digits + [32] + text + [10]
  {
    DigitsAreDecimal(id, digits);
  }

  /** Printing an id and parsing it back gives the id exactly when it fits in 64 bits. */
  lemma StoullOfDigits(id: nat)
    ensures Stoull(Digits(id)) == Some(id) <==> id < TWO_64
  {
    var d := Digits(id);
    assert IsDigit(d[0]);
    assert SkipBlanks(d) == d;
    assert d[..|d|] == d;
    DigitsValue(id);
  }

  lemma {:induction false} SkipsBlanks(blanks: Text, rest: Text)
    requires forall k :: 0 <= k < |blanks| ==> blanks[k] == 32 || 9 <= blanks[k] <= 13
    requires rest == [] || !(rest[0] == 32 || 9 <= rest[0] <= 13)
    ensures SkipBlanks(blanks + rest) == rest
    decreases |blanks|
  {
    if blanks == [] {
      assert blanks + rest == rest;
    } else {
      assert (blanks + rest)[1..] == blanks[1..] + rest;
      SkipsBlanks(blanks[1..], rest);
    }
  }

  lemma {:induction false} RunOfDigits(digits: Text, rest: Text)
    requires forall k :: 0 <= k < |digits| ==> 48 <= digits[k] <= 57
    requires rest == [] || !(48 <= rest[0] <= 57)
    ensures DigitRun(digits + rest) == |digits|
  {
    var all := digits + rest;
    assert forall k :: 0 <= k < |digits| ==> all[k] == digits[k];
    if rest != [] {
      assert all[|digits|] == rest[0];
    }
  }

  lemma Negated(v: nat)
    requires v < TWO_64
    ensures (TWO_64 - v) % TWO_64 == if v > 0 then TWO_64 - v else 0
  {
  }

  lemma MagnitudeOfDigits(digits: Text, rest: Text, minus: bool)
    requires forall k :: 0 <= k < |digits| ==> 48 <= digits[k] <= 57
    requires rest == [] || !(48 <= rest[0] <= 57)
    ensures Magnitude(digits + rest, minus) ==
            if digits == [] || DecimalValue(digits) >= 0x1_0000_0000_0000_0000 then None
            else if minus && DecimalValue(digits) > 0 then Some(0x1_0000_0000_0000_0000 - DecimalValue(digits))
            else Some(DecimalValue(digits))
  {
    hide DecimalValue, DigitRun;
    RunOfDigits(digits, rest);
    assert (digits + rest)[..|digits|] == digits;
    if digits != [] && DecimalValue(digits) < TWO_64 {
      Negated(DecimalValue(digits));
    }
  }

  lemma SignSplits(sign: Text, u: Text)
    requires sign == [43] || sign == [45] || (sign == [] && (u == [] || !(u[0] == 43 || u[0] == 45)))
    ensures Signed(sign + u) == Magnitude(u, sign == [45])
  {
    hide Magnitude;
    if sign == [] {
      assert sign + u == u;
    } else {
      assert (sign + u)[1..] == u;
    }
  }

  /** std::stoull on text of its grammar - blanks, a sign or none, digits, then anything that is
      no digit: it throws exactly when there is no digit or the value passes 64 bits, and a minus
      sign wraps the value around. */
  lemma StoullOfGrammar(blanks: Text, sign: Text, digits: Text, rest: Text)
    requires forall k :: 0 <= k < |blanks| ==> blanks[k] == 32 || 9 <= blanks[k] <= 13
    requires sign == [] || sign == [43] || sign == [45]
    requires forall k :: 0 <= k < |digits| ==> 48 <= digits[k] <= 57
    requires rest == [] || !(48 <= rest[0] <= 57)
    requires sign == [] && digits == [] ==> rest == [] || !(rest[0] == 32 || 9 <= rest[0] <= 13 || rest[0] == 43 || rest[0] == 45)
    ensures Stoull(blanks + sign + digits + rest) ==
            if digits == [] || DecimalValue(digits) >= 0x1_0000_0000_0000_0000 then None
            else if sign == [45] && DecimalValue(digits) > 0 then Some(0x1_0000_0000_0000_0000 - DecimalValue(digits))
            else Some(DecimalValue(digits))
  {
    hide SkipBlanks, Signed, Magnitude, DecimalValue;
    var u := digits + rest;
    assert blanks + sign + digits + rest == blanks + (sign + u);
    assert digits != [] ==> u[0] == digits[0];
    assert sign == [] ==> sign + u == u;
    SkipsBlanks(blanks, sign + u);
    SignSplits(sign, u);
    MagnitudeOfDigits(digits, rest, sign == [45]);
  }

  /** The first occurrence of a byte in the front part decides. */
  lemma FindInFront(front: Text, back: Text, b: Byte)
    ensures b in front ==> Find(front + back, b) == Find(front, b)
    ensures b !in front ==> Find(front + [b] + back, b) == |front|
  {
    var f := Find(front, b);
    var g := Find(front + back, b);
    if b in front {
      assert f < |front|;
      assert (front + back)[f] == b;
      assert g <= f;
      assert (front + back)[g] == front[g];
    } else {
      var h := Find(front + [b] + back, b);
      assert (front + [b] + back)[|front|] == b;
      assert forall k :: 0 <= k < |front| ==> (front + [b] + back)[k] == front[k];
    }
  }

  /** A line splits at its first space: what stoull makes of the front is the id, or throws, and
      the rest is the text. A line without a space is malformed. */
  lemma ParseSplitsAtSpace(front: Text, back: Text)
    requires 32 !in front
    ensures ParseLine(front) == NoSpace
    ensures ParseLine(front + [32] + back) ==
            if Stoull(front).None? then Threw else Delivered(Record(Stoull(front).value, back))
  {
    FindInFront(front, back, SPACE);
    assert Find(front, SPACE) == |front|;
    assert (front + [32] + back)[..|front|] == front && (front + [32] + back)[|front| + 1..] == back;
  }

  /** The line readRecordAt sees in front of its first newline. */
  lemma LineBeforeNewline(id: nat, text: Text, rest: Text)
    ensures var nl := Find(Line(id, text) + rest, NEWLINE);
            && nl == |Digits(id)| + 1 + |UpToNewline(text)|
            && nl < |Line(id, text)|
            && (Line(id, text) + rest)[..nl] == Digits(id) + [SPACE] + UpToNewline(text)
  {
    var head := Digits(id) + [SPACE];
    var all := Line(id, text) + rest;
    var nl := Find(all, NEWLINE);
    var cut := Find(text, NEWLINE);
    var want := |head| + cut;
    assert all == head + (text + [NEWLINE] + rest);
    assert NEWLINE !in head;
    assert all[want] == NEWLINE;
    assert forall k :: 0 <= k < want ==> all[k] != NEWLINE by {
      forall k | 0 <= k < want ensures all[k] != NEWLINE {
        if k < |head| {
          assert all[k] == head[k];
        } else {
          assert all[k] == text[k - |head|];
        }
      }
    }
    assert nl == want;
    assert all[..nl] == head + text[..cut];
  }

  /** A line prints and parses back to the id and the text up to its first newline, exactly
      when the id fits in 64 bits. */
  lemma ParseOfPrinted(id: nat, text: Text)
    ensures ParseLine(Digits(id) + [SPACE] + UpToNewline(text)) == Delivered(Record(id, UpToNewline(text)))
            <==> id < TWO_64
  {
    var d := Digits(id);
    var line := d + [SPACE] + UpToNewline(text);
    assert SPACE !in d;
    FindInFront(d, UpToNewline(text), SPACE);
    assert line[..|d|] == d;
    assert line[|d| + 1..] == UpToNewline(text);
    StoullOfDigits(id);
  }

  /** Cutting at the first newline leaves exactly the texts without one as they are. */
  lemma CutIsWhole(text: Text)
    ensures UpToNewline(text) == text <==> NEWLINE !in text
  {
    if NEWLINE !in text {
      assert Find(text, NEWLINE) == |text|;
    }
  }

  /** Whatever bytes precede and follow it, a record written at an offset reads back there as
      its id and its text up to the first newline: exactly as it was written if and only if
      the text holds no newline. */
  lemma {:induction false} RoundTrip(before: Text, id: nat, text: Text, after: Text)
    requires id < TWO_64
    ensures ReadAt(before + Line(id, text) + after, |before|) == Delivered(Record(id, UpToNewline(text)))
    ensures ReadAt(before + Line(id, text) + after, |before|) == Delivered(Record(id, text)) <==> NEWLINE !in text
  {
    var file := before + Line(id, text) + after;
    assert file[|before|..] == Line(id, text) + after;
    LineBeforeNewline(id, text, after);
    ParseOfPrinted(id, text);
    CutIsWhole(text);
  }

  /** The failing family: everything from the first newline of a text on is lost, so texts that
      agree up to it read back alike. */
  lemma TextAfterNewlineIsLost(before: Text, id: nat, head: Text, tail: Text, after: Text)
    requires id < TWO_64 && NEWLINE !in head
    ensures ReadAt(before + Line(id, head + [NEWLINE] + tail) + after, |before|) == Delivered(Record(id, head))
  {
    var text := head + [NEWLINE] + tail;
    RoundTrip(before, id, text, after);
    FindInFront(head, tail, NEWLINE);
    assert text[..|head|] == head;
  }

  // ----- a line held in a file -----

  predicate HoldsLine(file: Text, offset: nat, line: Text) {
    offset + |line| <= |file| && file[offset..offset + |line|] == line
  }

  lemma LineNotEmpty(id: nat, text: Text)
    ensures |Line(id, text)| > 0
  {
  }

  lemma {:induction false} LineReadsBack(file: Text, offset: nat, id: nat, text: Text)
    requires id < TWO_64 && HoldsLine(file, offset, Line(id, text))
    ensures ReadAt(file, offset) == Delivered(Record(id, UpToNewline(text)))
    ensures ReadAt(file, offset) == Delivered(Record(id, text)) <==> NEWLINE !in text
  {
    var line := Line(id, text);
    var after := file[offset + |line|..];
    assert file == file[..offset] + line + after;
    RoundTrip(file[..offset], id, text, after);
  }

  /** A reader cannot get past a held line without seeing a newline. */
  lemma NewlineInLine(file: Text, offset: nat, end: nat, id: nat, text: Text)
    requires HoldsLine(file, offset, Line(id, text)) && offset <= end <= |file|
    ensures offset + |Line(id, text)| <= end ==> NEWLINE in file[offset..end]
  {
    var line := Line(id, text);
    var seen := file[offset..end];
    assert line[|line| - 1] == NEWLINE;
    if end >= offset + |line| {
      assert seen[..|line|] == file[offset..offset + |line|];
      assert seen[|line| - 1] == seen[..|line|][|line| - 1];
    }
  }

  /** Bytes read on from inside a held line are the file's, and the line's while in it. */
  lemma LineGrows(file: Text, offset: nat, mid: nat, end: nat, line: Text)
    requires HoldsLine(file, offset, line) && offset <= mid <= offset + |line| && mid <= end <= |file|
    ensures line[..mid - offset] + file[mid..end] == file[offset..end]
    ensures end <= offset + |line| ==> file[offset..end] == line[..end - offset]
  {
    assert line[..mid - offset] == file[offset..mid];
    if end <= offset + |line| {
      assert line[..end - offset] == file[offset..end];
    }
  }

  /** As soon as the bytes in hand hold a newline, they decide what the record reads as. */
  lemma {:induction false} BufferDecides(file: Text, offset: nat, end: nat)
    requires offset <= end <= |file| && NEWLINE in file[offset..end]
    ensures var buf := file[offset..end]; ReadAt(file, offset) == ParseLine(buf[..Find(buf, NEWLINE)])
  {
    var buf := file[offset..end];
    var nl := Find(buf, NEWLINE);
    assert file[offset..] == buf + file[end..];
    FindInFront(buf, file[end..], NEWLINE);
    assert file[offset..][..nl] == buf[..nl];
  }

  /** The bytes of `file` from `lo` to `hi`, none past its end. */
  function Between(file: Text, lo: nat, hi: nat): Text {
    if lo <= hi <= |file| then file[lo..hi] else []
  }

  lemma BetweenNothing(file: Text, at: nat)
    ensures Between(file, at, at) == []
  {
  }

  lemma BetweenGrows(file: Text, lo: nat, mid: nat, hi: nat)
    requires lo <= mid <= hi <= |file|
    ensures Between(file, lo, mid) + file[mid..hi] == Between(file, lo, hi) == file[lo..hi]
  {
  }

  /** With the end of the file reached and no newline in hand, there is no record. */
  lemma EndDecides(file: Text, offset: nat, end: nat)
    requires offset <= end && |file| <= end && (offset < end ==> end == |file|)
    requires NEWLINE !in Between(file, offset, end)
    ensures ReadAt(file, offset) == NoNewline
  {
    if offset <= |file| {
      assert file[offset..] == Between(file, offset, |file|);
    }
  }
}
