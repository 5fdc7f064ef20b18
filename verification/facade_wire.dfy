/** The response a broker writes and a facade client reads back: three lines, two of them base64. */
module FacadeWire {
  import opened Common
  import opened Base64
  import opened SessionLog

  /** What one fixture execution produced; `exitStatus` is absent when it was killed or never ran. */
  datatype Outcome = Outcome(stdout: seq<byte>, stderr: seq<byte>, exitStatus: Option<nat>)

  /** What the caller of a facade client observes. */
  datatype Observed = Observed(stdout: seq<byte>, stderr: seq<byte>, exit: nat)

  /** The facade's own exit code for a call without an exit status. */
  const NO_STATUS := 98

  function Digit(n: nat): char
    requires n < 10
  {
    '0' + n as char
  }

  function Decimal(n: nat): (text: string)
    ensures text != "" && forall c <- text :: '0' <= c <= '9'
  {
    if n < 10 then [Digit(n)] else Decimal(n / 10) + [Digit(n % 10)]
  }

  function ParseDecimal(text: string): Option<nat> {
    if text == "" then None
    else
      var last := text[|text| - 1];
      if !('0' <= last <= '9') then None
      else if |text| == 1 then Some((last - '0') as nat)
      else
        match ParseDecimal(text[..|text| - 1])
        case None => None
        case Some(front) => Some(10 * front + (last - '0') as nat)
  }

  lemma {:induction false} DecimalRoundTrip(n: nat)
    ensures ParseDecimal(Decimal(n)) == Some(n)
  {
    if n >= 10 {
      DecimalRoundTrip(n / 10);
      var text := Decimal(n);
      assert text[..|text| - 1] == Decimal(n / 10);
    }
  }

  function StatusText(exitStatus: Option<nat>): string {
    match exitStatus
    case None => "null"
    case Some(n) => Decimal(n)
  }

  function ResponseBody(o: Outcome): string {
    Encode(o.stdout) + "\n" + Encode(o.stderr) + "\n" + StatusText(o.exitStatus) + "\n"
  }

  /** `sed -n '<k + 1>p'`: the k-th line of a file, or nothing when there is none. */
  function LineOf(content: string, k: nat): string {
    var lines := Lines(content);
    if k < |lines| then lines[k] else ""
  }

  /** The end of the client script, given the three lines it read. */
  function Observe(stdout: string, stderr: string, status: string): Option<Observed> {
    match (Decode(stdout), Decode(stderr))
    case (Some(out), Some(err)) =>
      if status == "null" then Some(Observed(out, err, NO_STATUS))
      else (match ParseDecimal(status) case Some(n) => Some(Observed(out, err, n)) case None => None)
    case _ => None
  }

  function Expected(o: Outcome): Observed {
    Observed(o.stdout, o.stderr, match o.exitStatus case None => NO_STATUS case Some(n) => n)
  }

  lemma StatusIsOneLine(exitStatus: Option<nat>)
    ensures '\n' !in StatusText(exitStatus)
    ensures exitStatus.Some? ==> StatusText(exitStatus) != "null"
  {
    if exitStatus.Some? {
      assert StatusText(exitStatus)[0] in StatusText(exitStatus);
    }
  }

  lemma BodyLines(o: Outcome)
    ensures Lines(ResponseBody(o)) == [Encode(o.stdout), Encode(o.stderr), StatusText(o.exitStatus), ""]
  {
    RoundTrip(o.stdout);
    RoundTrip(o.stderr);
    StatusIsOneLine(o.exitStatus);
    var lines := [Encode(o.stdout), Encode(o.stderr), StatusText(o.exitStatus), ""];
    hide Encode, StatusText, Lines;
    assert lines[1..] == [lines[1], lines[2], lines[3]];
    assert lines[1..][1..] == [lines[2], lines[3]];
    assert lines[1..][1..][1..] == [lines[3]];
    assert JoinLines([lines[3]]) == "";
    assert JoinLines([lines[2], lines[3]]) == lines[2] + "\n" + "";
    assert JoinLines(lines[1..]) == lines[1] + "\n" + (lines[2] + "\n" + "");
    assert JoinLines(lines) == ResponseBody(o);
    LinesAreTheCut(ResponseBody(o), lines);
  }

  /** Whatever bytes a fixture prints, newlines and all, the client ends with exactly those, and with its status. */
  lemma ResponseRoundTrip(o: Outcome)
    ensures var body := ResponseBody(o);
            Observe(LineOf(body, 0), LineOf(body, 1), LineOf(body, 2)) == Some(Expected(o))
  {
    BodyLines(o);
    RoundTrip(o.stdout);
    RoundTrip(o.stderr);
    StatusIsOneLine(o.exitStatus);
    hide Encode, StatusText, Lines, ResponseBody, Decode, ParseDecimal;
    if o.exitStatus.Some? {
      DecimalRoundTrip(o.exitStatus.value);
      StatusTextOfNumber(o.exitStatus.value);
    } else {
      StatusTextOfNothing();
    }
  }

  lemma StatusTextOfNumber(n: nat)
    ensures StatusText(Some(n)) == Decimal(n)
  {
  }

  lemma StatusTextOfNothing()
    ensures StatusText(None) == "null"
  {
  }
}
