/** The decisions of the environment setup script (scripts/setup.js):
    whether an existing .env.local is overwritten, which port is written,
    and the content of the file. The readline answers and the existence of
    the file are parameters; the write itself is the returned content. */
module SetupScript {
  import opened Wrappers
  import opened Text

  const DefaultPort := "3000"
  const DefaultNodeEnv := "development"

  /* ---------- The overwrite question ---------- */

  /** overwrite.toLowerCase() is "y" or "yes". */
  predicate ShouldOverwrite(answer: string) {
    Lower(answer) == "y" || Lower(answer) == "yes"
  }

  /** Exactly the answers y and yes in any mix of upper and lower case
      confirm the overwrite. */
  lemma ShouldOverwriteIff(answer: string)
    ensures ShouldOverwrite(answer) <==>
              (|answer| == 1 && answer[0] in "yY") ||
              (|answer| == 3 && answer[0] in "yY" && answer[1] in "eE" && answer[2] in "sS")
  {
    if |answer| == 1 {
      assert Lower(answer) == [LowerChar(answer[0])];
    } else if |answer| == 3 {
      assert Lower(answer) == [LowerChar(answer[0]), LowerChar(answer[1]), LowerChar(answer[2])];
    }
  }

  /* ---------- parseInt ---------- */

  /** The value of c as a digit of base up to 36, None for other characters. */
  function DigitValue(c: char): (v: Option<nat>)
    ensures v.Some? ==> v.value < 36
    ensures ('0' <= c <= '9') <==> (v.Some? && v.value < 10)
  {
    if '0' <= c <= '9' then Some((c as int - '0' as int) as nat)
    else if 'a' <= c <= 'z' then Some((c as int - 'a' as int + 10) as nat)
    else if 'A' <= c <= 'Z' then Some((c as int - 'A' as int + 10) as nat)
    else None
  }

  predicate IsRadixDigit(c: char, radix: nat) {
    DigitValue(c).Some? && DigitValue(c).value < radix
  }

  /** The length of the longest prefix of s made of digits of the radix. */
  function DigitRun(s: string, radix: nat): (n: nat)
    ensures n <= |s|
    ensures forall i :: 0 <= i < n ==> IsRadixDigit(s[i], radix)
    ensures n < |s| ==> !IsRadixDigit(s[n], radix)
    decreases |s|
  {
    if s != [] && IsRadixDigit(s[0], radix) then 1 + DigitRun(s[1..], radix) else 0
  }

  /** The number the digits of s denote in the radix, most significant first. */
  function DigitsValue(s: string, radix: nat): nat
    requires forall i :: 0 <= i < |s| ==> IsRadixDigit(s[i], radix)
    decreases |s|
  {
    if s == [] then 0
    else
      var front := s[..|s| - 1];
      assert forall i :: 0 <= i < |front| ==> front[i] == s[i];
      assert IsRadixDigit(s[|s| - 1], radix);
      var high := DigitsValue(front, radix);
      NatProduct(high, radix);
      high * radix + DigitValue(s[|s| - 1]).value
  }

  lemma NatProduct(a: nat, b: nat)
    ensures a * b >= 0
  {
  }

  /** The longest run of digits of the radix at the start of body, as a
      number; None (NaN) when there is none. */
  function ReadRun(body: string, radix: nat): (r: Option<nat>)
    ensures r.None? <==> DigitRun(body, radix) == 0
  {
    var n := DigitRun(body, radix);
    if n == 0 then None else Some(DigitsValue(body[..n], radix))
  }

  /** The unsigned part: base 16 after a 0x or 0X prefix, base 10 otherwise. */
  function ReadUnsigned(u: string): Option<nat> {
    if |u| >= 2 && u[0] == '0' && (u[1] == 'x' || u[1] == 'X') then ReadRun(u[2..], 16)
    else ReadRun(u, 10)
  }

  /** An optional sign before the unsigned part. */
  function ReadSigned(t: string): Option<int> {
    if t != [] && t[0] == '-' then
      (match ReadUnsigned(t[1..]) case None => None case Some(v) => Some(-(v as int)))
    else if t != [] && t[0] == '+' then
      (match ReadUnsigned(t[1..]) case None => None case Some(v) => Some(v))
    else
      (match ReadUnsigned(t) case None => None case Some(v) => Some(v))
  }

  /** parseInt(s) with no radix: skip leading whitespace, take an optional
      sign, read base 16 after a 0x or 0X prefix and base 10 otherwise, and
      convert the longest run of digits that follows; None stands for NaN,
      when that run is empty. */
  function ParseInt(s: string): Option<int> {
    ReadSigned(TrimStart(s))
  }

  /** A string starting with a digit is its own trimStart. */
  lemma TrimStartDigit(s: string)
    requires s != [] && DigitValue(s[0]).Some?
    ensures TrimStart(s) == s
  {
    DigitNotSpace(s[0]);
  }

  /** A run of digits followed by a non-digit is read whole. */
  lemma ReadRunPrefix(w: string, rest: string, radix: nat)
    requires w != [] && forall i :: 0 <= i < |w| ==> IsRadixDigit(w[i], radix)
    requires rest == [] || !IsRadixDigit(rest[0], radix)
    ensures ReadRun(w + rest, radix) == Some(DigitsValue(w, radix))
  {
    DigitRunPrefix(w, rest, radix);
    assert (w + rest)[..|w|] == w;
  }

  /** The decimal rendering of a number is made of decimal digits. */
  lemma {:induction false} NatToStringDigits(n: nat)
    ensures forall i :: 0 <= i < |NatToString(n)| ==> '0' <= NatToString(n)[i] <= '9'
    decreases n
  {
    if n >= 10 {
      NatToStringDigits(n / 10);
    }
  }

  /** The decimal digits of a number's rendering denote the number. */
  lemma {:induction false} DigitsValueOfNat(n: nat)
    ensures forall i :: 0 <= i < |NatToString(n)| ==> IsRadixDigit(NatToString(n)[i], 10)
    ensures DigitsValue(NatToString(n), 10) == n
    decreases n
  {
    NatToStringDigits(n);
    var s := NatToString(n);
    if n >= 10 {
      DigitsValueOfNat(n / 10);
      assert s[..|s| - 1] == NatToString(n / 10);
    }
  }

  /** A run of digits followed by something else is read up to its end. */
  lemma {:induction false} DigitRunPrefix(w: string, rest: string, radix: nat)
    requires forall i :: 0 <= i < |w| ==> IsRadixDigit(w[i], radix)
    requires rest == [] || !IsRadixDigit(rest[0], radix)
    ensures DigitRun(w + rest, radix) == |w|
    decreases |w|
  {
    if w != [] {
      assert (w + rest)[1..] == w[1..] + rest;
      DigitRunPrefix(w[1..], rest, radix);
    }
  }

  /** No digit of any base is whitespace. */
  lemma DigitNotSpace(c: char)
    requires DigitValue(c).Some?
    ensures !IsSpace(c)
  {
  }

  /** A string starting with a digit has no whitespace or sign to skip. */
  lemma ParseIntDigitStart(s: string)
    requires s != [] && '0' <= s[0] <= '9'
    ensures ReadUnsigned(s).None? ==> ParseInt(s).None?
    ensures ReadUnsigned(s).Some? ==> ParseInt(s) == Some(ReadUnsigned(s).value as int)
  {
    TrimStartDigit(s);
  }

  /** Without an x in second place the number is read in base 10. */
  lemma ReadUnsignedDecimal(u: string)
    requires |u| < 2 || (u[1] != 'x' && u[1] != 'X')
    ensures ReadUnsigned(u) == ReadRun(u, 10)
  {
  }

  /** parseInt reads a number's decimal rendering back, and stops at the
      first character that is not a digit: "80abc" reads as 80. */
  lemma ParseIntNat(n: nat, rest: string)
    requires rest == [] || (DigitValue(rest[0]).None? || 10 <= DigitValue(rest[0]).value)
    requires rest == [] || (rest[0] != 'x' && rest[0] != 'X')
    ensures ParseInt(NatToString(n) + rest) == Some(n)
  {
    var w := NatToString(n);
    DigitsValueOfNat(n);
    NatToStringDigits(n);
    var s := w + rest;
    assert s[0] == w[0];
    if |s| >= 2 {
      if |w| >= 2 {
        assert s[1] == w[1];
        DigitNotX(w[1]);
      } else {
        assert s[1] == rest[0];
      }
    }
    ReadUnsignedDecimal(s);
    ReadRunPrefix(w, rest, 10);
    ParseIntDigitStart(s);
  }

  /* ---------- The port question ---------- */

  /** port.trim() || "3000". */
  function CandidatePort(answer: string): (c: string)
    ensures Trim(answer) != [] ==> c == Trim(answer)
    ensures Trim(answer) == [] ==> c == DefaultPort
    ensures c != []
  {
    var t := Trim(answer);
    if t == [] then DefaultPort else t
  }

  /** parseInt gave a number from 1 to 65535. */
  predicate PortInRange(p: Option<int>) {
    p.Some? && 1 <= p.value <= 65535
  }

  /** The port written to the file: the candidate itself, verbatim, when
      parseInt reads it as a valid port, and "3000" otherwise. */
  function ChosenPort(answer: string): string {
    var c := CandidatePort(answer);
    if PortInRange(ParseInt(c)) then c else DefaultPort
  }

  /** An answer with nothing to trim that reads as a valid port is
      written as it is. */
  lemma KeptWhenValid(c: string)
    requires c != [] && !IsSpace(c[0]) && !IsSpace(c[|c| - 1])
    requires PortInRange(ParseInt(c))
    ensures ChosenPort(c) == c
  {
    TrimOfTrimmed(c);
  }

  /** An answer with nothing to trim that does not read as a valid port
      writes the default. */
  lemma RejectedWhenInvalid(c: string)
    requires c != [] && !IsSpace(c[0]) && !IsSpace(c[|c| - 1])
    requires !PortInRange(ParseInt(c))
    ensures ChosenPort(c) == DefaultPort
  {
    TrimOfTrimmed(c);
  }

  lemma DefaultPortParses()
    ensures ParseInt(DefaultPort) == Some(3000)
  {
    assert NatToString(3000) == DefaultPort;
    ParseIntNat(3000, "");
    assert NatToString(3000) + "" == DefaultPort;
  }

  /** The written port is either the candidate or the default, it is the
      candidate exactly when that reads as a valid port (or is the default
      already), and whatever is written reads as a valid port. */
  lemma ChosenPortMeaning(answer: string)
    ensures var c, p := CandidatePort(answer), ChosenPort(answer);
            && (p == c || p == DefaultPort)
            && (PortInRange(ParseInt(c)) ==> p == c)
            && (!PortInRange(ParseInt(c)) ==> p == DefaultPort)
            && PortInRange(ParseInt(p))
  {
    DefaultPortParses();
  }

  /** A plain decimal port from 1 to 65535 is kept as typed. */
  lemma DecimalPortKept(n: nat)
    requires 1 <= n <= 65535
    ensures ChosenPort(NatToString(n)) == NatToString(n)
  {
    var w := NatToString(n);
    NatToStringDigits(n);
    DigitNotSpace(w[0]);
    DigitNotSpace(w[|w| - 1]);
    ParseIntNat(n, []);
    assert w + [] == w;
    KeptWhenValid(w);
  }

  /** A decimal port followed by other text is accepted and written with
      that text, as long as the text does not start with a digit or an x
      and does not end in whitespace. */
  lemma SuffixedPortKept(n: nat, rest: string)
    requires 1 <= n <= 65535
    requires rest == [] || (DigitValue(rest[0]).None? || 10 <= DigitValue(rest[0]).value)
    requires rest == [] || (rest[0] != 'x' && rest[0] != 'X')
    requires rest == [] || !IsSpace(rest[|rest| - 1])
    ensures ChosenPort(NatToString(n) + rest) == NatToString(n) + rest
  {
    var w := NatToString(n);
    var s := w + rest;
    NatToStringDigits(n);
    DigitNotSpace(w[0]);
    DigitNotSpace(w[|w| - 1]);
    assert s[0] == w[0];
    assert !IsSpace(s[|s| - 1]) by {
      if rest == [] { assert s[|s| - 1] == w[|w| - 1]; } else { assert s[|s| - 1] == rest[|rest| - 1]; }
    }
    ParseIntNat(n, rest);
    KeptWhenValid(s);
  }

  /** "0x" followed by hexadecimal digits reads in base 16. */
  lemma ParseIntHex(w: string)
    requires w != [] && forall i :: 0 <= i < |w| ==> IsRadixDigit(w[i], 16)
    ensures ParseInt("0x" + w) == Some(DigitsValue(w, 16))
  {
    var s := "0x" + w;
    assert s[0] == '0' && s[1] == 'x';
    TrimStartDigit(s);
    assert s[2..] == w + [];
    ReadRunPrefix(w, [], 16);
    assert ReadUnsigned(s) == Some(DigitsValue(w, 16));
  }

  /** A hexadecimal port from 1 to 65535 is accepted and written as typed. */
  lemma HexPortKept(w: string)
    requires w != [] && forall i :: 0 <= i < |w| ==> IsRadixDigit(w[i], 16)
    requires 1 <= DigitsValue(w, 16) <= 65535
    ensures ChosenPort("0x" + w) == "0x" + w
  {
    var s := "0x" + w;
    ParseIntHex(w);
    assert s[0] == '0';
    DigitNotSpace(s[0]);
    assert s[|s| - 1] == w[|w| - 1];
    DigitNotSpace(w[|w| - 1]);
    KeptWhenValid(s);
  }

  /** A leading minus sign negates what follows it. */
  lemma ParseIntMinus(s: string)
    requires s != [] && s[0] == '-'
    ensures ReadUnsigned(s[1..]).None? ==> ParseInt(s).None?
    ensures ReadUnsigned(s[1..]).Some? ==> ParseInt(s) == Some(-(ReadUnsigned(s[1..]).value as int))
  {
    assert !IsSpace(s[0]);
  }

  /** A run of decimal digits reads as the number it denotes. */
  lemma DecimalDigitsRead(w: string)
    requires w != [] && forall i :: 0 <= i < |w| ==> '0' <= w[i] <= '9'
    ensures forall i :: 0 <= i < |w| ==> IsRadixDigit(w[i], 10)
    ensures ReadUnsigned(w) == Some(DigitsValue(w, 10))
  {
    if |w| >= 2 {
      DigitNotX(w[1]);
    }
    ReadUnsignedDecimal(w);
    ReadRunPrefix(w, [], 10);
    assert w + [] == w;
  }

  /** A negative number's rendering reads as that negative number. */
  lemma ParseIntNegative(n: nat)
    ensures ParseInt("-" + NatToString(n)) == Some(-(n as int))
  {
    var w := NatToString(n);
    assert ReadUnsigned(w) == Some(n) by {
      NatToStringDigits(n);
      DigitsValueOfNat(n);
      DecimalDigitsRead(w);
    }
    MinusPrefixRead(w, n);
  }

  /** A minus sign before what reads as v reads as -v. */
  lemma MinusPrefixRead(w: string, v: nat)
    requires ReadUnsigned(w) == Some(v)
    ensures ParseInt("-" + w) == Some(-(v as int))
  {
    var s := "-" + w;
    assert s[1..] == w;
    ParseIntMinus(s);
  }

  /** Zero and negative ports fall back to the default. */
  lemma NonPositivePortRejected(n: nat)
    ensures ChosenPort(NatToString(0)) == DefaultPort
    ensures ChosenPort("-" + NatToString(n)) == DefaultPort
  {
    var z := NatToString(0);
    ParseIntNat(0, []);
    assert z + [] == z;
    DigitNotSpace(z[0]);
    RejectedWhenInvalid(z);
    var w := NatToString(n);
    var s := "-" + w;
    NatToStringDigits(n);
    assert !IsSpace(s[0]);
    assert s[|s| - 1] == w[|w| - 1];
    DigitNotSpace(w[|w| - 1]);
    ParseIntNegative(n);
    RejectedWhenInvalid(s);
  }

  lemma DigitNotX(c: char)
    requires '0' <= c <= '9'
    ensures c != 'x' && c != 'X'
  {
  }

  /* The leniency of parseInt on the answers of the setup prompt. */

  /** "80abc" is written as typed. */
  lemma TrailingTextExample(a: string)
    requires a == "80abc"
    ensures ChosenPort(a) == a
  {
    assert NatToString(80) == "80";
    assert a == NatToString(80) + "abc";
    SuffixedPortKept(80, "abc");
  }

  /** "0x50" reads as 80 and is written as typed. */
  lemma HexExample(b: string)
    requires b == "0x50"
    ensures ChosenPort(b) == b
  {
    assert b == "0x" + "50";
    assert DigitsValue("50", 16) == 80 by {
      assert "50"[..1] == "5";
    }
    HexPortKept("50");
  }

  /** "0" and "-5" fall back to the default. */
  lemma NonPositiveExamples(c: string, d: string)
    requires c == "0" && d == "-5"
    ensures ChosenPort(c) == DefaultPort && ChosenPort(d) == DefaultPort
  {
    assert NatToString(0) == c;
    assert NatToString(5) == "5";
    assert d == "-" + NatToString(5);
    NonPositivePortRejected(5);
  }

  /** A blank answer, or one of spaces only, writes the default port. */
  lemma BlankAnswerDefaults(answer: string)
    requires forall i :: 0 <= i < |answer| ==> IsSpace(answer[i])
    ensures ChosenPort(answer) == DefaultPort
  {
    TrimEmptyIff(answer);
    DefaultPortParses();
  }

  /* ---------- The .env.local file ---------- */

  /** The comment lines before the PORT assignment of createEnvFile's
      template. */
  const EnvHead: seq<string> :=
    [ "# Environment variables for local development",
      "# This file is automatically loaded by Next.js",
      "",
      "# Server configuration" ]

  /** The lines between the PORT and the NODE_ENV assignments. */
  const EnvMiddle: seq<string> := [ "", "# Development settings" ]

  /** The lines after the NODE_ENV assignment, the last one empty so that
      the file ends in a newline. */
  const EnvTail: seq<string> :=
    [ "",
      "# Optional: Custom domain for development",
      "# HOSTNAME=localhost",
      "",
      "# Optional: Enable/disable specific features",
      "# NEXT_PUBLIC_ANALYTICS_ID=your_analytics_id",
      "# NEXT_PUBLIC_GA_ID=your_google_analytics_id",
      "",
      "# Contact form configuration (optional)",
      "# NEXT_PUBLIC_CONTACT_EMAIL=your-email@example.com",
      "# NEXT_PUBLIC_CONTACT_PHONE=+1234567890",
      "",
      "# Social media links (optional)",
      "# NEXT_PUBLIC_GITHUB_URL=https://github.com/yourusername",
      "# NEXT_PUBLIC_LINKEDIN_URL=https://linkedin.com/in/yourusername",
      "# NEXT_PUBLIC_TWITTER_URL=https://twitter.com/yourusername",
      "" ]

  /** The lines of createEnvFile's template. */
  function EnvLines(port: string, nodeEnv: string): seq<string> {
    EnvHead + ["PORT=" + port] + EnvMiddle + ["NODE_ENV=" + nodeEnv] + EnvTail
  }

  /** envContent: the template lines joined by newlines. */
  function EnvContent(port: string, nodeEnv: string): string {
    Join(EnvLines(port, nodeEnv), '\n')
  }

  /** The PORT assignment stands on a line of its own, after the header
      comments and a newline and before a newline and the rest of the
      template. */
  lemma PortLine(port: string, nodeEnv: string)
    ensures EnvContent(port, nodeEnv) ==
              Join(EnvHead, '\n') + "\n" + ("PORT=" + port) + "\n" +
              Join(EnvMiddle + ["NODE_ENV=" + nodeEnv] + EnvTail, '\n')
  {
    var rest := EnvMiddle + ["NODE_ENV=" + nodeEnv] + EnvTail;
    assert EnvLines(port, nodeEnv) == EnvHead + ["PORT=" + port] + rest;
    JoinAround(EnvHead, "PORT=" + port, rest, '\n');
  }

  /** So does the NODE_ENV assignment, with the trailing comments after it. */
  lemma NodeEnvLine(port: string, nodeEnv: string)
    ensures EnvContent(port, nodeEnv) ==
              Join(EnvHead + ["PORT=" + port] + EnvMiddle, '\n') + "\n" + ("NODE_ENV=" + nodeEnv) + "\n" +
              Join(EnvTail, '\n')
  {
    var front := EnvHead + ["PORT=" + port] + EnvMiddle;
    JoinAround(front, "NODE_ENV=" + nodeEnv, EnvTail, '\n');
  }

  /** The chosen port never holds a line break when the answer has none,
      as readline's answers never do. */
  lemma ChosenPortOneLine(answer: string)
    requires '\n' !in answer
    ensures '\n' !in ChosenPort(answer)
  {
    TrimIsSlice(answer);
    var a := Lead(answer);
    SliceLacks(answer, a, a + |Trim(answer)|, '\n');
    assert '\n' !in DefaultPort;
  }

  /** A slice has no character its string lacks. */
  lemma SliceLacks(s: string, i: nat, j: nat, c: char)
    requires i <= j <= |s| && c !in s
    ensures c !in s[i..j]
  {
  }

  /** finalPort and the validation that follows it. */
  method ChoosePort(portAnswer: string) returns (port: string)
    ensures port == ChosenPort(portAnswer)
  {
    var finalPort := CandidatePort(portAnswer);
    var portNumber := ParseInt(finalPort);
    port := finalPort;
    if portNumber.None? || portNumber.value < 1 || portNumber.value > 65535 {
      assert !PortInRange(portNumber);
      port := DefaultPort;
    } else {
      assert PortInRange(portNumber);
    }
  }

  /** setup(): with an existing file and an answer other than y/yes, stop
      without writing; otherwise write the template with the chosen port
      and the development environment. The port answer is only asked for
      on the second path. */
  method Setup(envExists: bool, overwriteAnswer: string, portAnswer: string)
    returns (written: Option<string>)
    ensures written.None? <==> envExists && !ShouldOverwrite(overwriteAnswer)
    ensures written.Some? ==> written.value == EnvContent(ChosenPort(portAnswer), DefaultNodeEnv)
  {
    if envExists {
      var lowered := Lower(overwriteAnswer);
      if lowered != "y" && lowered != "yes" {
        return None;
      }
    }
    var port := ChoosePort(portAnswer);
    written := Some(EnvContent(port, DefaultNodeEnv));
  }
}
