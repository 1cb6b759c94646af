/**
 * utils.py: the whitespace normaliser, the session executor, the credential prompt's
 * username default and the address classifier.
 */
module Utils {
  import opened Wrappers
  import opened PyStr
  import opened Regex

  /** The Python exceptions of the core that escape to the caller. */
  datatype Raised =
    | KeyError(key: string)   // a missing os.environ or cmd_dict entry
    | ConnectError            // ConnectHandler raised something other than a timeout or an auth failure

  // ---------------------------------------------------------------------------
  // replace_space (utils.py:26-30)
  // ---------------------------------------------------------------------------

  /** Length of the whitespace run at the start of s. */
  function SpaceRun(s: string): (n: nat)
    ensures n <= |s| && AllSpace(s[..n])
    ensures n < |s| ==> !IsSpace(s[n])
  {
    if s != [] && IsSpace(s[0]) then
      var m := SpaceRun(s[1..]);
      assert s[..1 + m] == [s[0]] + s[1..][..m];
      1 + m
    else 0
  }

  /** `re.sub(r'\s+', '_', s)`: scanning left to right, each maximal whitespace run becomes `_`. */
  function SubSpaceRuns(s: string): (r: string)
    ensures NoSpace(r)
    ensures r == [] <==> s == []
    decreases |s|
  {
    if s == [] then []
    else if IsSpace(s[0]) then "_" + SubSpaceRuns(s[SpaceRun(s)..])
    else [s[0]] + SubSpaceRuns(s[1..])
  }

  lemma {:induction false} SubSpaceRunsIdentity(s: string)
    ensures NoSpace(s) ==> SubSpaceRuns(s) == s
    decreases |s|
  {
    if s != [] && NoSpace(s) {
      assert NoSpace(s[1..]) by {
        forall k | 0 <= k < |s| - 1 ensures !IsSpace(s[1..][k]) { assert s[1..][k] == s[k + 1]; }
      }
      SubSpaceRunsIdentity(s[1..]);
      assert s == [s[0]] + s[1..];
    }
  }

  /** replace_space: the substitution followed by strip(), which finds nothing left to strip. */
  function ReplaceSpace(text: string): (r: string)
    ensures NoSpace(r)
    ensures NoSpace(text) ==> r == text
  {
    SubSpaceRunsIdentity(text);
    StripNoSpace(SubSpaceRuns(text));
    Strip(SubSpaceRuns(text))
  }

  lemma {:induction false} SpaceRunOfRun(ws: string, rest: string)
    requires AllSpace(ws)
    requires rest == [] || !IsSpace(rest[0])
    ensures SpaceRun(ws + rest) == |ws|
    decreases |ws|
  {
    if ws != [] {
      assert (ws + rest)[1..] == ws[1..] + rest;
      SpaceRunOfRun(ws[1..], rest);
    } else {
      assert ws + rest == rest;
    }
  }

  lemma ReplaceSpaceIsSub(text: string)
    ensures ReplaceSpace(text) == SubSpaceRuns(text)
  {
    StripNoSpace(SubSpaceRuns(text));
  }

  /** A maximal whitespace run becomes exactly one underscore. */
  lemma ReplaceSpaceRun(ws: string, rest: string)
    requires ws != [] && AllSpace(ws)
    requires rest == [] || !IsSpace(rest[0])
    ensures ReplaceSpace(ws + rest) == "_" + ReplaceSpace(rest)
  {
    var s := ws + rest;
    SpaceRunOfRun(ws, rest);
    assert s[|ws|..] == rest;
    assert IsSpace(s[0]);
    assert SubSpaceRuns(s) == "_" + SubSpaceRuns(rest);
    ReplaceSpaceIsSub(s);
    ReplaceSpaceIsSub(rest);
  }

  /** A non-whitespace character is kept, in place. */
  lemma ReplaceSpaceKeep(c: char, rest: string)
    requires !IsSpace(c)
    ensures ReplaceSpace([c] + rest) == [c] + ReplaceSpace(rest)
  {
    var s := [c] + rest;
    assert s[1..] == rest;
    assert SubSpaceRuns(s) == [c] + SubSpaceRuns(rest);
    ReplaceSpaceIsSub(s);
    ReplaceSpaceIsSub(rest);
  }

  lemma ReplaceSpaceIdempotent(text: string)
    ensures ReplaceSpace(ReplaceSpace(text)) == ReplaceSpace(text)
  {
  }

  /** Only the empty note normalises to the empty string. */
  lemma ReplaceSpaceEmpty(text: string)
    ensures ReplaceSpace(text) == [] <==> text == []
  {
    ReplaceSpaceIsSub(text);
  }

  // ---------------------------------------------------------------------------
  // conn_and_get_output (utils.py:82-100)
  // ---------------------------------------------------------------------------

  /**
   * What netmiko.ConnectHandler did: an open session, whose send_command either returns the
   * device's output or raises (None); one of the two exceptions the function catches; or any
   * other exception, which the function does not catch.
   */
  datatype ConnectResult =
    | Connected(send: string -> Option<string>)
    | ConnectTimeout
    | AuthFailure
    | OtherConnectError

  /** The separator line written before a command's output; it names the command as given. */
  function Label(cmd: string): string {
    "\n!--- " + cmd + " \n"
  }

  /** What one command adds to the response: the device is sent the stripped command. */
  function Piece(send: string -> Option<string>, cmd: string): string {
    match send(Strip(cmd))
    case Some(output) => Label(cmd) + output
    case None => ""
  }

  function Transcript(send: string -> Option<string>, cmds: seq<string>): string {
    if cmds == [] then "" else Piece(send, cmds[0]) + Transcript(send, cmds[1..])
  }

  /**
   * The send_command the loop ends up calling. After a caught connection failure
   * net_connect is unbound, so every call raises NameError, which the loop catches.
   */
  function SendOf(conn: ConnectResult): string -> Option<string> {
    if conn.Connected? then conn.send else _ => None
  }

  function SessionOutput(conn: ConnectResult, cmds: seq<string>): Result<string, Raised> {
    if conn.OtherConnectError? then Err(ConnectError) else Ok(Transcript(SendOf(conn), cmds))
  }

  lemma {:induction false} TranscriptAppend(send: string -> Option<string>, a: seq<string>, b: seq<string>)
    ensures Transcript(send, a + b) == Transcript(send, a) + Transcript(send, b)
    decreases |a|
  {
    if a != [] {
      var c := a + b;
      assert c[0] == a[0] && c[1..] == a[1..] + b;
      TranscriptAppend(send, a[1..], b);
      assert Transcript(send, c) == Piece(send, a[0]) + Transcript(send, a[1..] + b);
    } else {
      assert a + b == b;
    }
  }

  lemma TranscriptExtend(send: string -> Option<string>, cmds: seq<string>, i: nat)
    requires i < |cmds|
    ensures Transcript(send, cmds[..i + 1]) == Transcript(send, cmds[..i]) + Piece(send, cmds[i])
  {
    assert cmds[..i + 1] == cmds[..i] + [cmds[i]];
    TranscriptAppend(send, cmds[..i], [cmds[i]]);
    assert Transcript(send, [cmds[i]]) == Piece(send, cmds[i]) + Transcript(send, []);
  }

  /** Commands whose sends all raise contribute nothing at all. */
  lemma {:induction false} TranscriptAllFail(send: string -> Option<string>, cmds: seq<string>)
    requires forall k :: 0 <= k < |cmds| ==> send(Strip(cmds[k])).None?
    ensures Transcript(send, cmds) == ""
    decreases |cmds|
  {
    if cmds != [] {
      assert forall k :: 0 <= k < |cmds| - 1 ==> cmds[1..][k] == cmds[k + 1];
      TranscriptAllFail(send, cmds[1..]);
    }
  }

  /**
   * Command k occupies its own slot, after the output of every earlier command and before
   * that of every later one: labelled with the command as given, filled with what the device
   * answered to the stripped command, or empty if that send raised.
   */
  lemma TranscriptSlot(send: string -> Option<string>, cmds: seq<string>, k: nat)
    requires k < |cmds|
    ensures Transcript(send, cmds) ==
      Transcript(send, cmds[..k]) + Piece(send, cmds[k]) + Transcript(send, cmds[k + 1..])
  {
    assert cmds == cmds[..k + 1] + cmds[k + 1..];
    TranscriptAppend(send, cmds[..k + 1], cmds[k + 1..]);
    TranscriptExtend(send, cmds, k);
  }

  /**
   * A caught timeout or authentication failure still yields a response: the empty one,
   * whatever the commands.
   */
  lemma RefusedSessionEmpty(conn: ConnectResult, cmds: seq<string>)
    requires conn.ConnectTimeout? || conn.AuthFailure?
    ensures SessionOutput(conn, cmds) == Ok("")
  {
    TranscriptAllFail(SendOf(conn), cmds);
  }

  /** conn_and_get_output, with the session the connection attempt produced as a parameter. */
  method ConnAndGetOutput(conn: ConnectResult, cmdList: seq<string>) returns (r: Result<string, Raised>)
    ensures r == SessionOutput(conn, cmdList)
    ensures r.Err? <==> conn.OtherConnectError?
    ensures (conn.ConnectTimeout? || conn.AuthFailure?) ==> r == Ok("")
    ensures cmdList == [] && !conn.OtherConnectError? ==> r == Ok("")
  {
    if conn.OtherConnectError? {
      return Err(ConnectError);
    }
    var send := SendOf(conn);
    var response := "";
    for i := 0 to |cmdList|
      invariant response == Transcript(send, cmdList[..i])
    {
      var cmd := cmdList[i];
      var output := send(Strip(cmd));
      if output.Some? {
        response := response + Label(cmd) + output.value;
      }
      assert response == Transcript(send, cmdList[..i]) + Piece(send, cmd);
      TranscriptExtend(send, cmdList, i);
    }
    assert cmdList[..|cmdList|] == cmdList;
    if !conn.Connected? {
      TranscriptAllFail(send, cmdList);
    }
    r := Ok(response);
  }

  // ---------------------------------------------------------------------------
  // get_creds (utils.py:150-166)
  // ---------------------------------------------------------------------------

  /**
   * get_creds with its three prompt answers and getpass.getuser() as parameters: a blank
   * username answer takes the OS user, any other answer (even one of spaces) is kept as typed;
   * the password and enable answers are passed through.
   */
  function GetCreds(typedUser: string, osUser: string, password: string, enable: string)
    : (r: (string, string, string))
    ensures typedUser == "" ==> r.0 == osUser
    ensures typedUser != "" ==> r.0 == typedUser
    ensures r.1 == password && r.2 == enable
  {
    (if typedUser == "" then osUser else typedUser, password, enable)
  }

  // ---------------------------------------------------------------------------
  // create_devobj_from_json_list (utils.py:169-215)
  // ---------------------------------------------------------------------------

  /** The connection record the classifier builds. */
  datatype DevObj = DevObj(ip: string, username: string, password: string, secret: string,
                           port: int, deviceType: string)

  datatype Login = Login(username: string, password: string)

  /** One rule of the ordered table: any of its patterns selects its type and login override. */
  datatype Rule = Rule(patterns: seq<Pattern>, deviceType: string, login: Option<Login>)

  /** `(ar|as|ds|cs){1}\d\d` as its four alternatives. */
  const CoreDev: seq<Pattern> := [
    Literal("ar") + [Digit, Digit], Literal("as") + [Digit, Digit],
    Literal("ds") + [Digit, Digit], Literal("cs") + [Digit, Digit]]
  const SrvNN: Pattern := Literal("-srv") + [Digit, Digit]
  const SpNN: Pattern := Literal("-sp") + [Digit, Digit]
  const WlcNN: Pattern := Literal("-wlc") + [Digit, Digit]
  const WlcAddress: Pattern := Dotted("10.1.10.109")
  const Lab10: Pattern := Dotted("10.1.10.")
  const Lab1: Pattern := Dotted("1.1.1.")
  const Ten: Pattern := Dotted("10.")

  const ReadOnlyLogin := Login("adminro", "Readonly1")

  /** The classifier's branches as a table, in the order they are tried. */
  const ClassifierRules: seq<Rule> := [
    Rule(CoreDev, "cisco_ios", None),
    Rule([SrvNN], "cisco_nxos", None),
    Rule([SpNN], "silverpeak", None),
    Rule([WlcNN], "cisco_wlc", None),
    Rule([WlcAddress], "cisco_wlc", Some(ReadOnlyLogin)),
    Rule([Lab10, Lab1], "cisco_ios", None),
    Rule([Ten], "cisco_ios", None)]

  predicate RuleMatches(rule: Rule, dev: string) {
    SearchAny(rule.patterns, dev, true)
  }

  /** The index of the first rule at or after position i that matches, if any. */
  function FirstMatchFrom(rules: seq<Rule>, dev: string, i: nat): (r: Option<nat>)
    ensures r.Some? ==> i <= r.value < |rules| && RuleMatches(rules[r.value], dev)
    ensures r.Some? ==> forall j :: i <= j < r.value ==> !RuleMatches(rules[j], dev)
    ensures r.None? ==> forall j :: i <= j < |rules| ==> !RuleMatches(rules[j], dev)
    decreases |rules| - i
  {
    if i >= |rules| then None
    else if RuleMatches(rules[i], dev) then Some(i)
    else FirstMatchFrom(rules, dev, i + 1)
  }

  /** The first rule of the table that matches: the one whose branch the chain takes. */
  function FirstMatch(rules: seq<Rule>, dev: string): Option<nat> {
    FirstMatchFrom(rules, dev, 0)
  }

  /** The table walk is determined by where the first match is: nothing earlier matches. */
  lemma FirstMatchAt(rules: seq<Rule>, dev: string, k: nat)
    requires k < |rules| && RuleMatches(rules[k], dev)
    requires forall j :: 0 <= j < k ==> !RuleMatches(rules[j], dev)
    ensures FirstMatch(rules, dev) == Some(k)
  {
    var r := FirstMatch(rules, dev);
    assert r.Some? && r.value <= k;
  }

  /** What each rule of the table tests, in the terms of the if/elif chain. */
  lemma RuleTests(dev: string)
    ensures |ClassifierRules| == 7
    ensures RuleMatches(ClassifierRules[0], dev) == SearchAny(CoreDev, dev, true)
    ensures RuleMatches(ClassifierRules[1], dev) == Search(SrvNN, dev, true)
    ensures RuleMatches(ClassifierRules[2], dev) == Search(SpNN, dev, true)
    ensures RuleMatches(ClassifierRules[3], dev) == Search(WlcNN, dev, true)
    ensures RuleMatches(ClassifierRules[4], dev) == Search(WlcAddress, dev, true)
    ensures RuleMatches(ClassifierRules[5], dev) == (Search(Lab10, dev, true) || Search(Lab1, dev, true))
    ensures RuleMatches(ClassifierRules[6], dev) == Search(Ten, dev, true)
  {
    SearchAnyOne(SrvNN, dev, true);
    SearchAnyOne(SpNN, dev, true);
    SearchAnyOne(WlcNN, dev, true);
    SearchAnyOne(WlcAddress, dev, true);
    SearchAnyTwo(Lab10, Lab1, dev, true);
    SearchAnyOne(Ten, dev, true);
  }

  /** The if/elif chain of the classifier picks the same rule as the table walk. */
  lemma ChainIsFirstMatch(dev: string)
    ensures var first := FirstMatch(ClassifierRules, dev);
      if SearchAny(CoreDev, dev, true) then first == Some(0)
      else if Search(SrvNN, dev, true) then first == Some(1)
      else if Search(SpNN, dev, true) then first == Some(2)
      else if Search(WlcNN, dev, true) then first == Some(3)
      else if Search(WlcAddress, dev, true) then first == Some(4)
      else if Search(Lab10, dev, true) || Search(Lab1, dev, true) then first == Some(5)
      else if Search(Ten, dev, true) then first == Some(6)
      else first == None
  {
    RuleTests(dev);
    var rules := ClassifierRules;
    if !SearchAny(CoreDev, dev, true) {
      assert FirstMatchFrom(rules, dev, 0) == FirstMatchFrom(rules, dev, 1);
      if !Search(SrvNN, dev, true) {
        assert FirstMatchFrom(rules, dev, 1) == FirstMatchFrom(rules, dev, 2);
        if !Search(SpNN, dev, true) {
          assert FirstMatchFrom(rules, dev, 2) == FirstMatchFrom(rules, dev, 3);
          if !Search(WlcNN, dev, true) {
            assert FirstMatchFrom(rules, dev, 3) == FirstMatchFrom(rules, dev, 4);
            if !Search(WlcAddress, dev, true) {
              assert FirstMatchFrom(rules, dev, 4) == FirstMatchFrom(rules, dev, 5);
              if !(Search(Lab10, dev, true) || Search(Lab1, dev, true)) {
                assert FirstMatchFrom(rules, dev, 5) == FirstMatchFrom(rules, dev, 6);
                if !Search(Ten, dev, true) {
                  assert FirstMatchFrom(rules, dev, 6) == FirstMatchFrom(rules, dev, 7);
                }
              }
            }
          }
        }
      }
    }
  }

  /** The classifier as a first-match-wins walk over the rule table. */
  function ClassifyByRules(dev: string, env: map<string, string>): Result<DevObj, Raised> {
    if "NET_USR" !in env then Err(KeyError("NET_USR"))
    else if "NET_PWD" !in env then Err(KeyError("NET_PWD"))
    else
      var base := DevObj(Strip(dev), env["NET_USR"], env["NET_PWD"], env["NET_PWD"], 22, "unknown");
      match FirstMatch(ClassifierRules, dev)
      case None => Ok(base)
      case Some(k) =>
        var rule := ClassifierRules[k];
        match rule.login
        case None => Ok(base.(deviceType := rule.deviceType))
        case Some(l) =>
          Ok(base.(deviceType := rule.deviceType, username := l.username,
                   password := l.password, secret := l.password))
  }

  /**
   * What every classification shares: it fails exactly when NET_USR or NET_PWD is missing;
   * otherwise the ip is the stripped name, the port 22, the secret the password, the type one
   * of five, and the environment login is kept unless the read-only WLC address rule fired.
   */
  lemma ClassifyFields(dev: string, env: map<string, string>)
    ensures var r := ClassifyByRules(dev, env);
      (r.Ok? <==> "NET_USR" in env && "NET_PWD" in env)
      && (r.Err? ==> r.error == KeyError(if "NET_USR" !in env then "NET_USR" else "NET_PWD"))
      && (r.Ok? ==>
            r.value.ip == Strip(dev) && r.value.port == 22 && r.value.secret == r.value.password
            && r.value.deviceType in ["cisco_ios", "cisco_nxos", "silverpeak", "cisco_wlc", "unknown"]
            && (FirstMatch(ClassifierRules, dev) == Some(4) ==>
                  r.value.username == "adminro" && r.value.password == "Readonly1")
            && (FirstMatch(ClassifierRules, dev) != Some(4) ==>
                  r.value.username == env["NET_USR"] && r.value.password == env["NET_PWD"]))
  {
    var first := FirstMatch(ClassifierRules, dev);
    if first.Some? {
      var k := first.value;
      assert k < 7;
      assert ClassifierRules[k].login.Some? <==> k == 4;
      assert ClassifierRules[k].deviceType in ["cisco_ios", "cisco_nxos", "silverpeak", "cisco_wlc"];
    }
  }

  /** Every rule needs a digit: a name without one matches none of them and stays "unknown". */
  lemma NoDigitsNoRule(dev: string)
    requires NoDigitsFrom(dev, 0)
    ensures FirstMatch(ClassifierRules, dev) == None
  {
    forall i | 0 <= i < |CoreDev|
      ensures !Search(CoreDev[i], dev, true)
    {
      DigitAtomNeedsDigit(CoreDev[i], dev, true, 2);
    }
    assert !SearchAny(CoreDev, dev, true);
    DigitAtomNeedsDigit(SrvNN, dev, true, 4);
    DigitAtomNeedsDigit(SpNN, dev, true, 3);
    DigitAtomNeedsDigit(WlcNN, dev, true, 4);
    DigitAtomNeedsDigit(WlcAddress, dev, true, 0);
    DigitAtomNeedsDigit(Lab10, dev, true, 0);
    DigitAtomNeedsDigit(Lab1, dev, true, 0);
    DigitAtomNeedsDigit(Ten, dev, true, 0);
    ChainIsFirstMatch(dev);
  }

  /**
   * The four host-name rules need a letter, so a dotted address is classified by the address
   * rules alone.
   */
  lemma AddressSkipsNameRules(dev: string)
    requires DigitsAndDotsFrom(dev, 0)
    ensures FirstMatch(ClassifierRules, dev) == FirstMatchFrom(ClassifierRules, dev, 4)
  {
    forall i | 0 <= i < |CoreDev|
      ensures !Search(CoreDev[i], dev, true)
    {
      LetterAtomNeedsLetter(CoreDev[i], dev, true, 0);
    }
    assert !SearchAny(CoreDev, dev, true);
    LetterAtomNeedsLetter(SrvNN, dev, true, 1);
    LetterAtomNeedsLetter(SpNN, dev, true, 1);
    LetterAtomNeedsLetter(WlcNN, dev, true, 1);
    RuleTests(dev);
    var rules := ClassifierRules;
    assert FirstMatchFrom(rules, dev, 0) == FirstMatchFrom(rules, dev, 1);
    assert FirstMatchFrom(rules, dev, 1) == FirstMatchFrom(rules, dev, 2);
    assert FirstMatchFrom(rules, dev, 2) == FirstMatchFrom(rules, dev, 3);
    assert FirstMatchFrom(rules, dev, 3) == FirstMatchFrom(rules, dev, 4);
  }

  lemma WlcAddressDigitsAndDots() ensures DigitsAndDotsFrom("10.1.10.109", 0) {}

  /** The WLC address itself gets the WLC type and the read-only login, not the lab rule. */
  lemma ClassifyReadOnlyWlc(env: map<string, string>)
    requires "NET_USR" in env && "NET_PWD" in env
    ensures ClassifyByRules("10.1.10.109", env)
      == Ok(DevObj("10.1.10.109", "adminro", "Readonly1", "Readonly1", 22, "cisco_wlc"))
  {
    var dev := "10.1.10.109";
    WlcAddressDigitsAndDots();
    AddressSkipsNameRules(dev);
    StripEdges(dev);
    assert dev[0..|dev|] == dev;
    DottedMatchesSource(dev, dev, 0, true);
    assert MatchesAt(WlcAddress, dev, 0, true);
    SearchFound(WlcAddress, dev, true);
    SearchAnyOne(WlcAddress, dev, true);
    assert FirstMatchFrom(ClassifierRules, dev, 4) == Some(4);
  }

  /** The address patterns, atom by atom. */
  lemma AddressAtoms()
    ensures WlcAddress == [Lit('1'), Lit('0'), AnyChar, Lit('1'), AnyChar, Lit('1'), Lit('0'),
                           AnyChar, Lit('1'), Lit('0'), Lit('9')]
    ensures Lab10 == [Lit('1'), Lit('0'), AnyChar, Lit('1'), AnyChar, Lit('1'), Lit('0'), AnyChar]
    ensures Lab1 == [Lit('1'), AnyChar, Lit('1'), AnyChar, Lit('1'), AnyChar]
    ensures Ten == [Lit('1'), Lit('0'), AnyChar]
  {
    assert WlcAddress == [Lit('1'), Lit('0'), AnyChar, Lit('1'), AnyChar, Lit('1'), Lit('0'),
                          AnyChar, Lit('1'), Lit('0'), Lit('9')];
    assert Lab10 == [Lit('1'), Lit('0'), AnyChar, Lit('1'), AnyChar, Lit('1'), Lit('0'), AnyChar];
    assert Lab1 == [Lit('1'), AnyChar, Lit('1'), AnyChar, Lit('1'), AnyChar];
    assert Ten == [Lit('1'), Lit('0'), AnyChar];
  }

  lemma WlcAddressNotInTestNet()
    ensures !Search([Lit('1'), Lit('0'), AnyChar, Lit('1'), AnyChar, Lit('1'), Lit('0'),
                     AnyChar, Lit('1'), Lit('0'), Lit('9')], "192.0.2.100", true)
  {}
  lemma Lab10NotInTestNet()
    ensures !Search([Lit('1'), Lit('0'), AnyChar, Lit('1'), AnyChar, Lit('1'), Lit('0'), AnyChar],
                    "192.0.2.100", true)
  {}
  lemma Lab1NotInTestNet()
    ensures !Search([Lit('1'), AnyChar, Lit('1'), AnyChar, Lit('1'), AnyChar], "192.0.2.100", true)
  {}
  lemma TenInTestNet() ensures Search([Lit('1'), Lit('0'), AnyChar], "192.0.2.100", true) {}

  lemma TestNetAddressDigitsAndDots() ensures DigitsAndDotsFrom("192.0.2.100", 0) {}

  /**
   * The dots of '10.' are unescaped, so an address outside 10.0.0.0/8 whose last octet is
   * 100 still takes the '10.' rule and is classified as cisco_ios.
   */
  lemma ClassifyUnescapedDot(env: map<string, string>)
    requires "NET_USR" in env && "NET_PWD" in env
    ensures ClassifyByRules("192.0.2.100", env)
      == Ok(DevObj("192.0.2.100", env["NET_USR"], env["NET_PWD"], env["NET_PWD"], 22, "cisco_ios"))
  {
    var dev := "192.0.2.100";
    TestNetAddressDigitsAndDots();
    AddressSkipsNameRules(dev);
    StripEdges(dev);
    AddressAtoms();
    WlcAddressNotInTestNet();
    Lab10NotInTestNet();
    Lab1NotInTestNet();
    TenInTestNet();
    RuleTests(dev);
    var rules := ClassifierRules;
    assert FirstMatchFrom(rules, dev, 4) == FirstMatchFrom(rules, dev, 5);
    assert FirstMatchFrom(rules, dev, 5) == FirstMatchFrom(rules, dev, 6);
    assert FirstMatchFrom(rules, dev, 6) == Some(6);
  }

  /** The host-name patterns, atom by atom. */
  lemma NameAtoms()
    ensures CoreDev == [[Lit('a'), Lit('r'), Digit, Digit], [Lit('a'), Lit('s'), Digit, Digit],
                        [Lit('d'), Lit('s'), Digit, Digit], [Lit('c'), Lit('s'), Digit, Digit]]
    ensures SrvNN == [Lit('-'), Lit('s'), Lit('r'), Lit('v'), Digit, Digit]
    ensures SpNN == [Lit('-'), Lit('s'), Lit('p'), Digit, Digit]
    ensures WlcNN == [Lit('-'), Lit('w'), Lit('l'), Lit('c'), Digit, Digit]
  {
    assert Literal("ar") + [Digit, Digit] == [Lit('a'), Lit('r'), Digit, Digit];
    assert Literal("as") + [Digit, Digit] == [Lit('a'), Lit('s'), Digit, Digit];
    assert Literal("ds") + [Digit, Digit] == [Lit('d'), Lit('s'), Digit, Digit];
    assert Literal("cs") + [Digit, Digit] == [Lit('c'), Lit('s'), Digit, Digit];
    assert Literal("-srv") == [Lit('-'), Lit('s'), Lit('r'), Lit('v')];
    assert Literal("-sp") == [Lit('-'), Lit('s'), Lit('p')];
    assert Literal("-wlc") == [Lit('-'), Lit('w'), Lit('l'), Lit('c')];
  }

  /** A name holding none of the four core pairs followed by two digits fails the first rule. */
  lemma NoCoreDev(dev: string)
    requires !Search([Lit('a'), Lit('r'), Digit, Digit], dev, true)
    requires !Search([Lit('a'), Lit('s'), Digit, Digit], dev, true)
    requires !Search([Lit('d'), Lit('s'), Digit, Digit], dev, true)
    requires !Search([Lit('c'), Lit('s'), Digit, Digit], dev, true)
    ensures !SearchAny(CoreDev, dev, true)
  {
    NameAtoms();
    forall j | 0 <= j < |CoreDev|
      ensures !Search(CoreDev[j], dev, true)
    {
      assert j == 0 || j == 1 || j == 2 || j == 3;
    }
  }

  lemma CoreInCoreName() ensures Search([Lit('a'), Lit('s'), Digit, Digit], "x-as01", true) {}
  lemma CoreNotInServerName()
    ensures !Search([Lit('a'), Lit('r'), Digit, Digit], "dc-srv01", true)
    ensures !Search([Lit('a'), Lit('s'), Digit, Digit], "dc-srv01", true)
    ensures !Search([Lit('d'), Lit('s'), Digit, Digit], "dc-srv01", true)
    ensures !Search([Lit('c'), Lit('s'), Digit, Digit], "dc-srv01", true)
  {}
  lemma SrvInServerName() ensures Search([Lit('-'), Lit('s'), Lit('r'), Lit('v'), Digit, Digit], "dc-srv01", true) {}
  lemma CoreNotInSilverPeakName()
    ensures !Search([Lit('a'), Lit('r'), Digit, Digit], "br-sp01", true)
    ensures !Search([Lit('a'), Lit('s'), Digit, Digit], "br-sp01", true)
    ensures !Search([Lit('d'), Lit('s'), Digit, Digit], "br-sp01", true)
    ensures !Search([Lit('c'), Lit('s'), Digit, Digit], "br-sp01", true)
  {}
  lemma SrvNotInSilverPeakName()
    ensures !Search([Lit('-'), Lit('s'), Lit('r'), Lit('v'), Digit, Digit], "br-sp01", true)
  {}
  lemma SpInSilverPeakName() ensures Search([Lit('-'), Lit('s'), Lit('p'), Digit, Digit], "br-sp01", true) {}
  lemma CoreNotInWlcName()
    ensures !Search([Lit('a'), Lit('r'), Digit, Digit], "hq-wlc01", true)
    ensures !Search([Lit('a'), Lit('s'), Digit, Digit], "hq-wlc01", true)
    ensures !Search([Lit('d'), Lit('s'), Digit, Digit], "hq-wlc01", true)
    ensures !Search([Lit('c'), Lit('s'), Digit, Digit], "hq-wlc01", true)
  {}
  lemma SrvSpNotInWlcName()
    ensures !Search([Lit('-'), Lit('s'), Lit('r'), Lit('v'), Digit, Digit], "hq-wlc01", true)
    ensures !Search([Lit('-'), Lit('s'), Lit('p'), Digit, Digit], "hq-wlc01", true)
  {}
  lemma WlcInWlcName() ensures Search([Lit('-'), Lit('w'), Lit('l'), Lit('c'), Digit, Digit], "hq-wlc01", true) {}

  /** A name matching the first rule whose first matching pattern is at index j of it. */
  lemma FirstRuleAt(dev: string, j: nat)
    requires j < |CoreDev| && Search(CoreDev[j], dev, true)
    ensures FirstMatch(ClassifierRules, dev) == Some(0)
  {
    RuleTests(dev);
  }

  /** A core-switch name takes the first rule: `cisco_ios`. */
  lemma ClassifyCoreName(env: map<string, string>)
    requires "NET_USR" in env && "NET_PWD" in env
    ensures ClassifyByRules("x-as01", env)
      == Ok(DevObj("x-as01", env["NET_USR"], env["NET_PWD"], env["NET_PWD"], 22, "cisco_ios"))
  {
    StripEdges("x-as01");
    NameAtoms();
    CoreInCoreName();
    FirstRuleAt("x-as01", 1);
  }

  /** A server name takes the `-srvNN` rule: `cisco_nxos`. */
  lemma ClassifyServerName(env: map<string, string>)
    requires "NET_USR" in env && "NET_PWD" in env
    ensures ClassifyByRules("dc-srv01", env)
      == Ok(DevObj("dc-srv01", env["NET_USR"], env["NET_PWD"], env["NET_PWD"], 22, "cisco_nxos"))
  {
    var dev := "dc-srv01";
    StripEdges(dev);
    NameAtoms();
    CoreNotInServerName();
    NoCoreDev(dev);
    SrvInServerName();
    RuleTests(dev);
    var rules := ClassifierRules;
    assert FirstMatchFrom(rules, dev, 0) == FirstMatchFrom(rules, dev, 1) == Some(1);
  }

  /** A SilverPeak name takes the `-spNN` rule: `silverpeak`. */
  lemma ClassifySilverPeakName(env: map<string, string>)
    requires "NET_USR" in env && "NET_PWD" in env
    ensures ClassifyByRules("br-sp01", env)
      == Ok(DevObj("br-sp01", env["NET_USR"], env["NET_PWD"], env["NET_PWD"], 22, "silverpeak"))
  {
    var dev := "br-sp01";
    StripEdges(dev);
    NameAtoms();
    CoreNotInSilverPeakName();
    NoCoreDev(dev);
    SrvNotInSilverPeakName();
    SpInSilverPeakName();
    RuleTests(dev);
    var rules := ClassifierRules;
    assert FirstMatchFrom(rules, dev, 0) == FirstMatchFrom(rules, dev, 1);
    assert FirstMatchFrom(rules, dev, 1) == FirstMatchFrom(rules, dev, 2) == Some(2);
  }

  /** A wireless-controller name takes the `-wlcNN` rule: `cisco_wlc` with the environment login. */
  lemma ClassifyWlcName(env: map<string, string>)
    requires "NET_USR" in env && "NET_PWD" in env
    ensures ClassifyByRules("hq-wlc01", env)
      == Ok(DevObj("hq-wlc01", env["NET_USR"], env["NET_PWD"], env["NET_PWD"], 22, "cisco_wlc"))
  {
    var dev := "hq-wlc01";
    StripEdges(dev);
    NameAtoms();
    CoreNotInWlcName();
    NoCoreDev(dev);
    SrvSpNotInWlcName();
    WlcInWlcName();
    RuleTests(dev);
    var rules := ClassifierRules;
    assert FirstMatchFrom(rules, dev, 0) == FirstMatchFrom(rules, dev, 1);
    assert FirstMatchFrom(rules, dev, 1) == FirstMatchFrom(rules, dev, 2);
    assert FirstMatchFrom(rules, dev, 2) == FirstMatchFrom(rules, dev, 3) == Some(3);
  }

  /** A name matching both the first and the `-srvNN` rule gets the first rule's type. */
  lemma ClassifyCoreBeatsServer(env: map<string, string>)
    requires "NET_USR" in env && "NET_PWD" in env
    ensures Search(SrvNN, "x-as01-srv02", true)
    ensures ClassifyByRules("x-as01-srv02", env)
      == Ok(DevObj("x-as01-srv02", env["NET_USR"], env["NET_PWD"], env["NET_PWD"], 22, "cisco_ios"))
  {
    var dev := "x-as01-srv02";
    StripEdges(dev);
    NameAtoms();
    CoreInConflictName();
    FirstRuleAt(dev, 1);
  }

  lemma CoreInConflictName()
    ensures Search([Lit('a'), Lit('s'), Digit, Digit], "x-as01-srv02", true)
    ensures Search([Lit('-'), Lit('s'), Lit('r'), Lit('v'), Digit, Digit], "x-as01-srv02", true)
  {}

  lemma LabAddressDigitsAndDots() ensures DigitsAndDotsFrom("10.1.10.5", 0) {}
  lemma LabInLabAddress()
    ensures Search([Lit('1'), Lit('0'), AnyChar, Lit('1'), AnyChar, Lit('1'), Lit('0'), AnyChar],
                   "10.1.10.5", true)
  {}

  /** A lab address other than the WLC's takes the `10.1.10.` rule: `cisco_ios`. */
  lemma ClassifyLabAddress(env: map<string, string>)
    requires "NET_USR" in env && "NET_PWD" in env
    ensures ClassifyByRules("10.1.10.5", env)
      == Ok(DevObj("10.1.10.5", env["NET_USR"], env["NET_PWD"], env["NET_PWD"], 22, "cisco_ios"))
  {
    var dev := "10.1.10.5";
    LabAddressDigitsAndDots();
    AddressSkipsNameRules(dev);
    StripEdges(dev);
    AddressAtoms();
    assert !Search(WlcAddress, dev, true);
    LabInLabAddress();
    RuleTests(dev);
    var rules := ClassifierRules;
    assert FirstMatchFrom(rules, dev, 4) == FirstMatchFrom(rules, dev, 5) == Some(5);
  }

  lemma Lab1AddressDigitsAndDots() ensures DigitsAndDotsFrom("1.1.1.1", 0) {}
  lemma LabInLab1Address()
    ensures Search([Lit('1'), AnyChar, Lit('1'), AnyChar, Lit('1'), AnyChar], "1.1.1.1", true)
  {}

  /** An address matching only the `1.1.1.` half of the fifth rule's `or` takes it: `cisco_ios`. */
  lemma ClassifyLab1Address(env: map<string, string>)
    requires "NET_USR" in env && "NET_PWD" in env
    ensures ClassifyByRules("1.1.1.1", env)
      == Ok(DevObj("1.1.1.1", env["NET_USR"], env["NET_PWD"], env["NET_PWD"], 22, "cisco_ios"))
  {
    var dev := "1.1.1.1";
    Lab1AddressDigitsAndDots();
    AddressSkipsNameRules(dev);
    StripEdges(dev);
    AddressAtoms();
    assert !Search(WlcAddress, dev, true);
    assert !Search(Lab10, dev, true);
    LabInLab1Address();
    RuleTests(dev);
    var rules := ClassifierRules;
    assert FirstMatchFrom(rules, dev, 4) == FirstMatchFrom(rules, dev, 5) == Some(5);
  }

  lemma WebNameNoDigits() ensures NoDigitsFrom("www.example.com", 0) {}

  /** A name without digits is left "unknown", with the environment login. */
  lemma ClassifyNoDigits(dev: string, env: map<string, string>)
    requires NoDigitsFrom(dev, 0)
    requires "NET_USR" in env && "NET_PWD" in env
    ensures ClassifyByRules(dev, env)
      == Ok(DevObj(Strip(dev), env["NET_USR"], env["NET_PWD"], env["NET_PWD"], 22, "unknown"))
  {
    NoDigitsNoRule(dev);
  }

  /** A web host name such as `www.example.com` is left "unknown", its name unchanged. */
  lemma ClassifyWebName(env: map<string, string>)
    requires "NET_USR" in env && "NET_PWD" in env
    ensures ClassifyByRules("www.example.com", env)
      == Ok(DevObj("www.example.com", env["NET_USR"], env["NET_PWD"], env["NET_PWD"], 22, "unknown"))
  {
    WebNameNoDigits();
    ClassifyNoDigits("www.example.com", env);
    StripEdges("www.example.com");
  }

  /**
   * create_devobj_from_json_list, with os.environ as a parameter: the record is set up with
   * the environment login and port 22, then one branch of the if/elif chain sets the type.
   */
  method CreateDevObj(dev: string, env: map<string, string>) returns (r: Result<DevObj, Raised>)
    ensures r == ClassifyByRules(dev, env)
  {
    if "NET_USR" !in env {
      return Err(KeyError("NET_USR"));
    }
    if "NET_PWD" !in env {
      return Err(KeyError("NET_PWD"));
    }
    var usr := env["NET_USR"];
    var pwd := env["NET_PWD"];
    var devObj := DevObj(Strip(dev), usr, pwd, pwd, 22, "");
    ChainIsFirstMatch(dev);
    ghost var rules := ClassifierRules;
    ghost var first := FirstMatch(rules, dev);
    if SearchAny(CoreDev, dev, true) {
      assert first == Some(0) && rules[0].login.None?;
      devObj := devObj.(deviceType := "cisco_ios");
    } else if Search(SrvNN, dev, true) {
      assert first == Some(1) && rules[1].login.None?;
      devObj := devObj.(deviceType := "cisco_nxos");
    } else if Search(SpNN, dev, true) {
      assert first == Some(2) && rules[2].login.None?;
      devObj := devObj.(deviceType := "silverpeak");
    } else if Search(WlcNN, dev, true) {
      assert first == Some(3) && rules[3].login.None?;
      devObj := devObj.(deviceType := "cisco_wlc");
    } else if Search(WlcAddress, dev, true) {
      assert first == Some(4) && rules[4].login == Some(ReadOnlyLogin);
      devObj := devObj.(deviceType := "cisco_wlc");
      devObj := devObj.(username := "adminro");
      devObj := devObj.(password := "Readonly1");
      devObj := devObj.(secret := "Readonly1");
    } else if Search(Lab10, dev, true) || Search(Lab1, dev, true) {
      assert first == Some(5) && rules[5].login.None?;
      devObj := devObj.(deviceType := "cisco_ios");
    } else if Search(Ten, dev, true) {
      assert first == Some(6) && rules[6].login.None?;
      devObj := devObj.(deviceType := "cisco_ios");
    } else {
      assert first == None;
      devObj := devObj.(deviceType := "unknown");
    }
    r := Ok(devObj);
  }
}
