/**
 The text protocol between a client and a server: one line per request, "GET k,v" or "PUT k,v".
 The client prints it, the server reads it into a buffer, checks it, and takes it apart in place.
 */
module Wire {
  const BUFFER_SIZE: nat := 8196
  const INT_MAX: int := 0x7FFF_FFFF
  const INT_MIN: int := -0x8000_0000
  const NUL: char := 0 as char

  datatype Kind = GET | PUT | INVALID

  datatype Message = Message(kind: Kind, key: int, val: int)

  // ---- numbers as text ----

  predicate IsDigit(c: char) {
    '0' <= c <= '9'
  }

  predicate AllDigits(s: string) {
    forall i :: 0 <= i < |s| ==> IsDigit(s[i])
  }

  /** What the digit loops compute: any character counts as its distance from '0'. */
  function ValueOf(s: string): int {
    if s == "" then 0 else ValueOf(s[..|s| - 1]) * 10 + (s[|s| - 1] as int - '0' as int)
  }

  function Digits(n: nat): (s: string)
    ensures s != "" && AllDigits(s)
  {
    var d := [(n % 10 + '0' as int) as char];
    if n < 10 then d else Digits(n / 10) + d
  }

  /** `%d`. */
  function Decimal(n: int): (s: string)
    ensures s != ""
  {
    if n < 0 then "-" + Digits(-n) else Digits(n)
  }

  function Pow10(k: nat): (p: nat)
    ensures p >= 1
  {
    if k == 0 then 1 else 10 * Pow10(k - 1)
  }

  lemma {:induction false} DigitsValue(n: nat)
    ensures ValueOf(Digits(n)) == n
  {
    if n >= 10 {
      DigitsValue(n / 10);
      assert Digits(n)[..|Digits(n)| - 1] == Digits(n / 10);
    }
  }

  lemma {:induction false} DigitsShort(n: nat, k: nat)
    requires k >= 1 && n < Pow10(k)
    ensures |Digits(n)| <= k
  {
    if n >= 10 {
      assert k > 1 by { assert Pow10(1) == 10 * Pow10(0); }
      DigitsShort(n / 10, k - 1);
    }
  }

  lemma {:induction false} DigitsBelow(n: nat)
    ensures n < Pow10(|Digits(n)|)
  {
    if n >= 10 {
      DigitsBelow(n / 10);
      assert |Digits(n)| == |Digits(n / 10)| + 1;
    } else {
      assert Pow10(1) == 10 * Pow10(0);
    }
  }

  /** A leading '-' is read as the digit -3. */
  lemma {:induction false} MinusValue(t: string)
    ensures ValueOf("-" + t) == -3 * Pow10(|t|) + ValueOf(t)
  {
    if t == "" {
      assert ValueOf("-") == ValueOf("") * 10 - 3 by { assert "-"[..0] == ""; }
    } else {
      var s := "-" + t;
      assert s[..|s| - 1] == "-" + t[..|t| - 1];
      MinusValue(t[..|t| - 1]);
    }
  }

  /** Reading back what was printed gives the number exactly when it is not negative. */
  lemma DecimalReadsBack(n: int)
    ensures ValueOf(Decimal(n)) == n <==> n >= 0
  {
    if n >= 0 {
      DigitsValue(n);
    } else {
      MinusValue(Digits(-n));
      DigitsValue(-n);
      DigitsBelow(-n);
    }
  }

  // ---- the width of the accumulator ----

  predicate IsInt32(n: int) {
    INT_MIN <= n <= INT_MAX
  }

  /** Every intermediate of `val * 10 + c - '0'`, for every prefix, is a 32-bit int. */
  ghost predicate StaysInt32(s: string) {
    forall i :: 0 <= i < |s| ==> StepInt32(ValueOf(s[..i]), s[i])
  }

  predicate StepInt32(val: int, c: char) {
    IsInt32(val * 10) && IsInt32(val * 10 + c as int) && IsInt32(val * 10 + c as int - '0' as int)
  }

  lemma {:induction false} PrefixNotAbove(s: string, i: nat)
    requires AllDigits(s) && i <= |s|
    ensures 0 <= ValueOf(s[..i]) <= ValueOf(s)
    decreases |s|
  {
    if i == |s| {
      assert s[..i] == s;
      if s != "" { PrefixNotAbove(s[..|s| - 1], |s| - 1); assert s[..|s| - 1][..|s| - 1] == s[..|s| - 1]; }
    } else {
      PrefixNotAbove(s[..|s| - 1], i);
      assert s[..|s| - 1][..i] == s[..i];
    }
  }

  /** The loops stay within 32 bits exactly for numbers up to 2^31 - 49. */
  lemma ReadsWithin32Bits(s: string)
    requires AllDigits(s) && s != ""
    ensures StaysInt32(s) <==> ValueOf(s) <= INT_MAX - 48
  {
    var last := |s| - 1;
    assert StaysInt32(s) ==> StepInt32(ValueOf(s[..last]), s[last]);
    forall i | 0 <= i < |s| && ValueOf(s) <= INT_MAX - 48 ensures StepInt32(ValueOf(s[..i]), s[i]) {
      PrefixNotAbove(s, i);
      PrefixNotAbove(s, i + 1);
      assert s[..i + 1][..i] == s[..i];
    }
  }

  // ---- the client ----

  function Printed(m: Message): string {
    (if m.kind == GET then "GET" else "PUT") + " " + Decimal(m.key) + "," + Decimal(m.val) + "\n"
  }

  lemma PrintedLength(m: Message)
    requires IsInt32(m.key) && IsInt32(m.val)
    ensures 8 <= |Printed(m)| <= 28
  {
    DecimalShort(m.key);
    DecimalShort(m.val);
  }

  lemma DecimalShort(n: int)
    requires IsInt32(n)
    ensures |Decimal(n)| <= 11
  {
    assert Pow10(10) == 10_000_000_000 by {
      assert Pow10(3) == 1000 && Pow10(6) == 1000 * Pow10(3) && Pow10(9) == 1000 * Pow10(6);
    }
    DigitsShort(if n < 0 then -n else n, 10);
  }

  /** `sprintf` of the text into a buffer. */
  method Sprint(out: array<char>, text: string) returns (length: nat)
    requires |text| < out.Length
    modifies out
    ensures length == |text| && out[..length] == text && out[length] == NUL
  {
    length := 0;
    while length < |text|
      invariant 0 <= length <= |text| && out[..length] == text[..length]
    {
      out[length] := text[length];
      length := length + 1;
    }
    out[length] := NUL;
  }

  /** `sendMessage` up to the write to the socket: what is sent is response[..length]. */
  method SendMessage(m: Message) returns (response: array<char>, length: nat)
    requires IsInt32(m.key) && IsInt32(m.val)
    ensures length <= response.Length && response[..length] == Printed(m)
  {
    PrintedLength(m);
    response := new char[BUFFER_SIZE];
    length := Sprint(response, Printed(m));
  }

  // ---- the server ----

  class Buffer {
    var data: array<char>
    var currentSize: nat

    ghost predicate Valid()
      reads this
    {
      currentSize <= data.Length
    }

    ghost function Contents(): string
      requires Valid()
      reads this, data
    {
      data[..currentSize]
    }

    /** The array past the contents still holds the zeros it was allocated with. */
    ghost predicate ZeroTail()
      reads this, data
    {
      forall i :: currentSize <= i < data.Length ==> data[i] == NUL
    }

    constructor (size: nat)
      ensures Valid() && Contents() == "" && fresh(data) && data.Length == size && ZeroTail()
    {
      data := new char[size](i => NUL);
      currentSize := 0;
    }

    method Add(ch: char)
      requires Valid()
      modifies this, data
      ensures Valid() && Contents() == old(Contents()) + [ch]
      ensures if old(currentSize < data.Length) then data == old(data) else fresh(data)
      ensures old(currentSize < data.Length && ZeroTail()) ==> ZeroTail()
    {
      if currentSize == data.Length {
        var newData := new char[data.Length * 2 + 1];
        forall i | 0 <= i < currentSize {
          newData[i] := data[i];
        }
        data := newData;
      }
      data[currentSize] := ch;
      currentSize := currentSize + 1;
    }
  }

  /** The first line of what arrives, with its newline if there is one. */
  function FirstLine(stream: string): (line: string)
    ensures |line| <= |stream| && line == stream[..|line|] && (line == "" <==> stream == "")
    ensures forall k :: 0 <= k < |line| - 1 ==> stream[k] != '\n'
    ensures |line| < |stream| ==> stream[|line| - 1] == '\n'
  {
    if stream == "" then "" else if stream[0] == '\n' then "\n" else [stream[0]] + FirstLine(stream[1..])
  }

  lemma {:induction false} FirstLineStops(text: string, rest: string)
    requires '\n' !in text
    ensures FirstLine(text + "\n" + rest) == text + "\n"
  {
    if text != "" {
      FirstLineStops(text[1..], rest);
      assert (text + "\n" + rest)[1..] == text[1..] + "\n" + rest;
    }
  }

  /** One character read: it goes into the buffer, and a newline ends the line. */
  method Accept(m: Buffer, stream: string, i: nat) returns (retry: bool)
    requires m.Valid() && i < |stream| && m.Contents() == stream[..i]
    modifies m, m.data
    ensures m.Valid() && m.currentSize == i + 1 && m.Contents() == stream[..i + 1]
    ensures retry <==> stream[i] != '\n'
    ensures if i < old(m.data.Length) then m.data == old(m.data) else fresh(m.data)
    ensures i < old(m.data.Length) && old(m.ZeroTail()) ==> m.ZeroTail()
  {
    m.Add(stream[i]);
    retry := stream[i] != '\n';
  }

  /** `socket_get_line` on the characters the socket will deliver. */
  method GetLine(stream: string) returns (message: Buffer?)
    ensures message == null <==> stream == ""
    ensures message != null ==> fresh(message) && fresh(message.data) && message.Valid()
    ensures message != null ==> message.Contents() == FirstLine(stream)
    ensures message != null && |FirstLine(stream)| < BUFFER_SIZE ==>
              message.data.Length == BUFFER_SIZE && message.ZeroTail()
  {
    var m := new Buffer(BUFFER_SIZE);
    ghost var n := |FirstLine(stream)|;
    var i := 0;
    var retry := true;
    while retry && i < |stream|
      invariant 0 <= i <= n && m.Valid() && fresh(m) && fresh(m.data)
      invariant m.currentSize == i && m.Contents() == stream[..i]
      invariant if retry then i < n || n == |stream| else i == n
      invariant i <= BUFFER_SIZE ==> m.data.Length == BUFFER_SIZE && m.ZeroTail()
    {
      retry := Accept(m, stream, i);
      i := i + 1;
    }
    message := if m.currentSize == 0 then null else m;
  }

  method Verify(protocol: Buffer?) returns (ok: bool)
    requires protocol != null ==> protocol.Valid()
    ensures ok <==> protocol != null && Acceptable(protocol.Contents())
    ensures ok <==> protocol != null && |protocol.Contents()| >= 8 && protocol.Contents()[3] == ' '
  {
    if protocol == null {
      return false;
    } else if protocol.currentSize < 8 {
      return false;
    } else if protocol.data[3] != ' ' {
      return false;
    }
    ok := true;
  }

  predicate Acceptable(line: string) {
    |line| >= 8 && line[3] == ' '
  }

  /** Index of the first character from i on that is not a digit. */
  function DigitsEnd(s: string, i: nat): (e: nat)
    requires i <= |s|
    ensures i <= e <= |s| && (forall j :: i <= j < e ==> IsDigit(s[j])) && (e < |s| ==> !IsDigit(s[e]))
    decreases |s| - i
  {
    if i < |s| && IsDigit(s[i]) then DigitsEnd(s, i + 1) else i
  }

  /** Index of the first NUL from i on. */
  function NulAt(s: string, i: nat): (e: nat)
    requires i <= |s|
    ensures i <= e <= |s| && (forall j :: i <= j < e ==> s[j] != NUL) && (e < |s| ==> s[e] == NUL)
    decreases |s| - i
  {
    if i < |s| && s[i] != NUL then NulAt(s, i + 1) else i
  }

  /** The text from i on holds a number, one separator, and a second run of characters up to a NUL. */
  predicate TwoRuns(s: string, i: nat) {
    i <= |s| && DigitsEnd(s, i) < |s| && NulAt(s, DigitsEnd(s, i) + 1) < |s|
  }

  function FirstRun(s: string, i: nat): string
    requires TwoRuns(s, i)
  {
    s[i..DigitsEnd(s, i)]
  }

  function SecondRun(s: string, i: nat): string
    requires TwoRuns(s, i)
  {
    s[DigitsEnd(s, i) + 1..NulAt(s, DigitsEnd(s, i) + 1)]
  }

  lemma ValueStep(s: string, from: nat, i: nat)
    requires from <= i < |s|
    ensures ValueOf(s[from..i + 1]) == ValueOf(s[from..i]) * 10 + s[i] as int - '0' as int
  {
    assert s[from..i + 1][..i - from] == s[from..i];
  }

  /** The first loop of `getTwoNumbers`. */
  method ReadDigits(data: array<char>, start: nat) returns (val: int, i: nat)
    requires start <= data.Length && DigitsEnd(data[..], start) < data.Length
    ensures i == DigitsEnd(data[..], start) && val == ValueOf(data[..][start..i])
  {
    ghost var s := data[..];
    i, val := start, 0;
    while IsDigit(data[i])
      invariant start <= i <= DigitsEnd(s, start) && val == ValueOf(s[start..i])
      decreases |s| - i
    {
      ValueStep(s, start, i);
      val := val * 10 + data[i] as int - '0' as int;
      i := i + 1;
    }
  }

  /** Its second loop, which takes any character but NUL for a digit. */
  method ReadToNul(data: array<char>, start: nat) returns (val: int)
    requires start <= data.Length && NulAt(data[..], start) < data.Length
    ensures val == ValueOf(data[..][start..NulAt(data[..], start)])
  {
    ghost var s := data[..];
    var i := start;
    val := 0;
    while data[i] != NUL
      invariant start <= i <= NulAt(s, start) && val == ValueOf(s[start..i])
      decreases |s| - i
    {
      ValueStep(s, start, i);
      val := val * 10 + data[i] as int - '0' as int;
      i := i + 1;
    }
  }

  /** `getTwoNumbers(data + start)`. */
  method GetTwoNumbers(data: array<char>, start: nat) returns (first: int, second: int)
    requires TwoRuns(data[..], start)
    ensures first == ValueOf(FirstRun(data[..], start)) && second == ValueOf(SecondRun(data[..], start))
  {
    var i;
    first, i := ReadDigits(data, start);
    second := ReadToNul(data, i + 1);
  }

  /**
   The buffer as `deserialize` leaves it: the last of the n characters
   of the line and the one after the verb are NUL.
   */
  function CutAt(text: string, n: nat): (s: string)
    requires 4 <= n <= |text|
    ensures |s| == |text|
  {
    text[n - 1 := NUL][3 := NUL]
  }

  function Cut(line: string): (s: string)
    requires |line| >= 4
    ensures |s| == |line|
  {
    CutAt(line, |line|)
  }

  /** What the buffer parses to, reading on past the line if that is where the next NUL is. */
  function ParsedAt(text: string, n: nat): Message
    requires 4 <= n <= |text| && TwoRuns(CutAt(text, n), 4)
  {
    Message(if text[..3] == "GET" then GET else PUT,
            ValueOf(FirstRun(CutAt(text, n), 4)), ValueOf(SecondRun(CutAt(text, n), 4)))
  }

  /** There is a separator before the end of the line, so that both numbers end inside it. */
  predicate Separated(line: string) {
    |line| >= 8 && TwoRuns(Cut(line), 4)
  }

  function Parsed(line: string): Message
    requires Separated(line)
  {
    ParsedAt(line, |line|)
  }

  /** A separated line parses to the same message whatever follows it in the buffer. */
  lemma SeparatedParse(text: string, n: nat)
    requires n <= |text| && Separated(text[..n])
    ensures TwoRuns(CutAt(text, n), 4) && ParsedAt(text, n) == Parsed(text[..n])
  {
    assert Cut(text[..n]) == CutAt(text, n)[..n];
    RunsOfPrefix(Cut(text[..n]), CutAt(text, n), 4);
    assert text[..n][..3] == text[..3];
  }

  lemma RunsEndInside(s: string, n: nat)
    requires 8 <= n <= |s| && s[n - 1] == NUL && DigitsEnd(s, 4) < n - 1
    ensures TwoRuns(s[..n], 4)
  {
    EndIs(s[..n], 4, DigitsEnd(s, 4));
    assert s[..n][n - 1] == NUL;
  }

  /** A line without a separator that a NUL follows parses to one number and 0. */
  lemma UnseparatedParse(text: string, n: nat)
    requires 8 <= n < |text| && text[n] == NUL && !Separated(text[..n])
    ensures TwoRuns(CutAt(text, n), 4) && AllDigits(text[4..n - 1])
    ensures ParsedAt(text, n).key == ValueOf(text[4..n - 1]) && ParsedAt(text, n).val == 0
  {
    var s := CutAt(text, n);
    var e := DigitsEnd(s, 4);
    assert !IsDigit(s[n - 1]) && e <= n - 1;
    assert Cut(text[..n]) == s[..n];
    if e < n - 1 { RunsEndInside(s, n); }
    assert e == n - 1 && NulAt(s, n) == n;
    assert s[4..n - 1] == text[4..n - 1] && s[n..n] == "";
  }

  lemma RunsOfPrefix(s: string, t: string, i: nat)
    requires s <= t && TwoRuns(s, i)
    ensures TwoRuns(t, i) && FirstRun(t, i) == FirstRun(s, i) && SecondRun(t, i) == SecondRun(s, i)
  {
    var p := DigitsEnd(s, i);
    EndIs(t, i, p);
    NulIs(t, p + 1, NulAt(s, p + 1));
  }

  lemma {:induction false} EndIs(s: string, i: nat, e: nat)
    requires i <= e < |s| && (forall j :: i <= j < e ==> IsDigit(s[j])) && !IsDigit(s[e])
    ensures DigitsEnd(s, i) == e
    decreases e - i
  {
    if i < e { EndIs(s, i + 1, e); }
  }

  lemma {:induction false} NulIs(s: string, i: nat, e: nat)
    requires i <= e < |s| && (forall j :: i <= j < e ==> s[j] != NUL) && s[e] == NUL
    ensures NulAt(s, i) == e
    decreases e - i
  {
    if i < e { NulIs(s, i + 1, e); }
  }

  /** `deserialize`: the message is the parse of the buffer, and two characters of it become NUL. */
  method Deserialize(protocol: Buffer) returns (message: Message)
    requires protocol.Valid() && protocol.currentSize >= 8
    requires TwoRuns(CutAt(protocol.data[..], protocol.currentSize), 4)
    modifies protocol.data
    ensures protocol.Valid() && protocol.data[..] == CutAt(old(protocol.data[..]), protocol.currentSize)
    ensures message == ParsedAt(old(protocol.data[..]), protocol.currentSize)
  {
    ghost var text := protocol.data[..];
    protocol.data[protocol.currentSize - 1] := NUL;
    protocol.data[3] := NUL;
    assert protocol.data[..] == CutAt(text, protocol.currentSize);
    assert protocol.data[..3] == text[..3];
    var kind := if protocol.data[..3] == "GET" then GET else PUT;
    var first, second := GetTwoNumbers(protocol.data, 4);
    message := Message(kind, first, second);
  }

  /** What a line sent on its own parses to: one without a separator counts as a number and 0. */
  function Received(line: string): Message
    requires |line| >= 8
  {
    if Separated(line) then Parsed(line)
    else Message(if line[..3] == "GET" then GET else PUT, ValueOf(line[4..|line| - 1]), 0)
  }

  lemma ReceivedParse(text: string, n: nat)
    requires 8 <= n <= |text| && (Separated(text[..n]) || (n < |text| && text[n] == NUL))
    ensures TwoRuns(CutAt(text, n), 4) && ParsedAt(text, n) == Received(text[..n])
  {
    if Separated(text[..n]) {
      SeparatedParse(text, n);
    } else {
      UnseparatedParse(text, n);
      assert text[..n][..3] == text[..3] && text[..n][4..n - 1] == text[4..n - 1];
    }
  }

  /**
   The reading half of `handleMessage`: every acceptable line shorter than the buffer is taken apart,
   and every longer one that has a separator.
   */
  method Receive(stream: string) returns (ok: bool, message: Message)
    requires |FirstLine(stream)| < BUFFER_SIZE || Separated(FirstLine(stream))
    ensures ok <==> Acceptable(FirstLine(stream))
    ensures ok ==> message == Received(FirstLine(stream))
  {
    var protocol := GetLine(stream);
    ok := Verify(protocol);
    if !ok {
      return false, Message(INVALID, 0, 0);
    }
    ReceivedParse(protocol.data[..], protocol.currentSize);
    message := Deserialize(protocol);
  }

  // ---- there and back ----

  lemma DecimalPlain(n: int)
    ensures forall i :: 0 <= i < |Decimal(n)| ==> IsDigit(Decimal(n)[i]) || Decimal(n)[i] == '-'
    ensures n >= 0 ==> AllDigits(Decimal(n))
  {
  }

  /** s reads as some four characters, a comma between a and b, and a NUL. */
  ghost predicate LaidOut(s: string, a: string, b: string) {
    && |s| == |a| + |b| + 6 && s[4 + |a|] == ',' && s[|s| - 1] == NUL
    && (forall j :: 0 <= j < |a| ==> s[4 + j] == a[j] && a[j] != NUL)
    && (forall j :: 0 <= j < |b| ==> s[5 + |a| + j] == b[j] && b[j] != NUL)
  }

  lemma RunsAreThere(s: string, a: string, b: string)
    requires LaidOut(s, a, b) && AllDigits(a)
    ensures TwoRuns(s, 4) && FirstRun(s, 4) == a && SecondRun(s, 4) == b
  {
    EndIs(s, 4, 4 + |a|) by {
      forall j | 4 <= j < 4 + |a| ensures IsDigit(s[j]) { assert s[j] == a[j - 4]; }
    }
    NulIs(s, 5 + |a|, |s| - 1) by {
      forall j | 5 + |a| <= j < |s| - 1 ensures s[j] != NUL { assert s[j] == b[j - 5 - |a|]; }
    }
  }

  lemma MinusEndsFirstRun(s: string, a: string, b: string)
    requires LaidOut(s, a, b) && a != "" && a[0] == '-'
    ensures TwoRuns(s, 4) && FirstRun(s, 4) == ""
  {
    assert s[4 + 0] == a[0];
    EndIs(s, 4, 4);
    NulIs(s, 5, |s| - 1) by {
      forall j | 5 <= j < |s| - 1 ensures s[j] != NUL {
        if j < 4 + |a| { assert s[j] == a[j - 4]; } else if j > 4 + |a| { assert s[j] == b[j - 5 - |a|]; }
      }
    }
  }

  lemma PrintedLaidOut(m: Message)
    ensures Acceptable(Printed(m)) && LaidOut(Cut(Printed(m)), Decimal(m.key), Decimal(m.val))
  {
    DecimalPlain(m.key);
    DecimalPlain(m.val);
  }

  /** Where the two runs of a printed line are. */
  lemma PrintedRuns(m: Message)
    ensures Acceptable(Printed(m)) && Separated(Printed(m))
    ensures m.key >= 0 ==> FirstRun(Cut(Printed(m)), 4) == Decimal(m.key)
    ensures m.key >= 0 ==> SecondRun(Cut(Printed(m)), 4) == Decimal(m.val)
    ensures m.key < 0 ==> FirstRun(Cut(Printed(m)), 4) == ""
  {
    var s, a, b := Cut(Printed(m)), Decimal(m.key), Decimal(m.val);
    PrintedLaidOut(m);
    DecimalPlain(m.key);
    if m.key >= 0 { RunsAreThere(s, a, b); } else { MinusEndsFirstRun(s, a, b); }
  }

  lemma OneNewline(m: Message)
    ensures Printed(m) != "" && '\n' !in Printed(m)[..|Printed(m)| - 1]
  {
    DecimalPlain(m.key);
    DecimalPlain(m.val);
  }

  /**
   A printed line is accepted and holds two numbers; it parses to the message it was printed from
   exactly when the verb is GET or PUT and neither number is negative.
   */
  lemma RoundTrip(m: Message)
    ensures Acceptable(Printed(m)) && Separated(Printed(m))
    ensures Parsed(Printed(m)) == m <==> m.kind != INVALID && m.key >= 0 && m.val >= 0
  {
    PrintedRuns(m);
    DecimalReadsBack(m.key);
    DecimalReadsBack(m.val);
    assert Printed(m)[..3] == if m.kind == GET then "GET" else "PUT";
    assert ValueOf("") == 0;
  }

  /** Lines as they look on the wire. */
  lemma PrintedLines()
    ensures Printed(Message(GET, 125, 0)) == "GET 125,0\n" && Printed(Message(PUT, -3, 47)) == "PUT -3,47\n"
    ensures ValueOf("2047") == 2047
  {
    assert Digits(125) == Digits(12) + "5" && Digits(12) == Digits(1) + "2" && Digits(47) == Digits(4) + "7";
    assert Digits(1) == "1" && Digits(4) == "4" && Digits(3) == "3" && Digits(0) == "0";
    assert Decimal(125) == "125" && Decimal(0) == "0" && Decimal(-3) == "-3" && Decimal(47) == "47";
    assert "2047"[..3] == "204" && "204"[..2] == "20" && "20"[..1] == "2" && "2"[..0] == "";
    assert ValueOf("2") == 2 && ValueOf("20") == 20 && ValueOf("204") == 204;
  }

  /** The same through the socket, whatever follows on it. */
  lemma RoundTripOverSocket(m: Message, rest: string)
    ensures FirstLine(Printed(m) + rest) == Printed(m)
  {
    OneNewline(m);
    var line := Printed(m);
    var text := line[..|line| - 1];
    assert line == text + "\n" && line + rest == text + "\n" + rest;
    FirstLineStops(text, rest);
  }

  /** Reading a printed number stays within 32 bits exactly up to 2^31 - 49. */
  lemma PrintedWithin32Bits(n: nat)
    ensures StaysInt32(Decimal(n)) <==> n <= 0x8000_0000 - 49
  {
    DecimalPlain(n);
    DecimalReadsBack(n);
    ReadsWithin32Bits(Decimal(n));
  }
}
