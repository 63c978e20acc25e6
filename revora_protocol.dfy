/** The Revora wire format: the request strings the backend sends
    (backslash-separated key/value fields) and the pieces it reads back out
    of the server's responses with regular-expression searches. Everything
    here is a function of its inputs; the backend class in `RevoraBackend`
    decides when each is used. */
module RevoraProtocol {
  import opened Basics
  import opened Text
  import opened GameBackend

  const SEP: char := '\\'

  // ---- requests ----

  /** `SendLoginRequest`. */
  function LoginRequest(username: string, password: string): string {
    "\\login\\\\user\\" + username + "\\password\\" + password + "\\gamename\\ccgenzh\\id\\1\\final\\"
  }

  /** `SendGameListRequest`. */
  const GAME_LIST_REQUEST: string := "\\list\\gamename\\ccgenzh\\final\\"

  /** The `password` field of the host request. */
  function PasswordFlag(requiresPassword: bool): string {
    if requiresPassword then "1" else "0"
  }

  /** `SendHostGameRequest`: the registration built from the hosted game and
      the local player's name; the 8-bit player counts are written as
      integers. */
  function HostRequest(hostName: string, game: GameSessionInfo): string {
    "\\heartbeat\\" + "\\gamename\\ccgenzh" + "\\gamever\\1.04"
    + "\\hostname\\" + hostName
    + "\\hostport\\" + NatToString(game.hostPort)
    + "\\mapname\\Alpine Assault"
    + "\\numplayers\\" + NatToString(game.curPlayers)
    + "\\maxplayers\\" + NatToString(game.maxPlayers)
    + "\\gamemode\\openplaying"
    + "\\password\\" + PasswordFlag(game.requiresPassword)
    + "\\final\\"
  }

  /** `SendHeartbeat`'s keep-alive for one session. */
  function HeartbeatRequest(sessionID: u32): string {
    "\\heartbeat\\" + "\\gamename\\ccgenzh" + "\\sesskey\\" + NatToString(sessionID) + "\\final\\"
  }

  /** `StartNatNegotiation`'s request. */
  function NatNegRequest(info: NatNegotiationInfo): string {
    "\\natneg\\" + "\\cookie\\" + info.cookie + "\\ip\\" + info.targetIP
    + "\\port\\" + NatToString(info.targetPort)
    + "\\localport\\" + NatToString(info.localPort) + "\\final\\"
  }

  // ---- the fields a request carries ----

  function LoginFields(username: string, password: string): seq<string> {
    ["", "login", "", "user", username, "password", password, "gamename", "ccgenzh", "id", "1", "final", ""]
  }

  function HostFields(hostName: string, game: GameSessionInfo): seq<string> {
    ["", "heartbeat", "", "gamename", "ccgenzh", "gamever", "1.04", "hostname", hostName,
     "hostport", NatToString(game.hostPort), "mapname", "Alpine Assault",
     "numplayers", NatToString(game.curPlayers), "maxplayers", NatToString(game.maxPlayers),
     "gamemode", "openplaying", "password", PasswordFlag(game.requiresPassword), "final", ""]
  }

  function HeartbeatFields(sessionID: u32): seq<string> {
    ["", "heartbeat", "", "gamename", "ccgenzh", "sesskey", NatToString(sessionID), "final", ""]
  }

  function NatNegFields(info: NatNegotiationInfo): seq<string> {
    ["", "natneg", "", "cookie", info.cookie, "ip", info.targetIP, "port", NatToString(info.targetPort),
     "localport", NatToString(info.localPort), "final", ""]
  }

  lemma DigitsFree(s: string)
    requires AllDigits(s)
    ensures Free(s, SEP)
  {
  }

  /** Joining two non-empty lists puts one separator between their joins. */
  lemma {:induction false} JoinAppend(a: seq<string>, b: seq<string>)
    requires |a| >= 1 && |b| >= 1
    ensures Join(a + b, SEP) == Join(a, SEP) + [SEP] + Join(b, SEP)
    decreases |a|
  {
    if |a| > 1 {
      assert (a + b)[1..] == a[1..] + b;
      JoinAppend(a[1..], b);
    } else {
      assert (a + b)[1..] == b;
    }
  }

  // ---- the literals of the requests, as joins of their fields ----

  lemma JoinTwo(a: string, b: string)
    ensures Join([a, b], SEP) == a + [SEP] + b
  {
    assert [a, b][1..] == [b];
  }

  lemma JoinThree(a: string, b: string, c: string)
    ensures Join([a, b, c], SEP) == a + [SEP] + b + [SEP] + c
  {
    assert [a, b, c][1..] == [b, c];
    JoinTwo(b, c);
  }

  /** Joining three runs of fields, with a separator before the first or
      after the last run. */
  lemma JoinRuns(a: seq<string>, b: seq<string>, c: seq<string>)
    requires |a| >= 1 && |b| >= 1 && |c| >= 1
    ensures Join(a + b + c, SEP) + [SEP] == Join(a, SEP) + ([SEP] + Join(b, SEP)) + ([SEP] + Join(c, SEP) + [SEP])
    ensures [SEP] + Join(a + b + c, SEP) == ([SEP] + Join(a, SEP)) + ([SEP] + Join(b, SEP)) + ([SEP] + Join(c, SEP))
  {
    JoinAppend(a + b, c);
    JoinAppend(a, b);
    Regroup(Join(a, SEP), Join(b, SEP), Join(c, SEP));
  }

  /** Moving the parentheses of three strings and their separators. */
  lemma Regroup(x: string, y: string, z: string)
    ensures x + [SEP] + y + [SEP] + z + [SEP] == x + ([SEP] + y) + ([SEP] + z + [SEP])
    ensures [SEP] + (x + [SEP] + y + [SEP] + z) == ([SEP] + x) + ([SEP] + y) + ([SEP] + z)
  {
  }

  lemma HeartbeatKey()
    ensures Join(["", "heartbeat", ""], SEP) == "\\heartbeat\\"
  {
    JoinThree("", "heartbeat", "");
  }

  lemma GameNameRun()
    ensures [SEP] + Join(["gamename", "ccgenzh"], SEP) == "\\gamename\\ccgenzh"
  {
    JoinTwo("gamename", "ccgenzh");
  }

  lemma FinalRun()
    ensures [SEP] + Join(["final", ""], SEP) == "\\final\\"
  {
    JoinTwo("final", "");
  }

  lemma LoginHead()
    ensures Join(["", "login", "", "user"], SEP) + [SEP] == "\\login\\\\user\\"
  {
    assert ["", "login", "", "user"] == ["", "login"] + ["", "user"];
    JoinTwo("", "login");
    assert [SEP] + Join(["", "user"], SEP) + [SEP] == "\\\\user\\" by { JoinTwo("", "user"); }
    TwoRunsClosed(["", "login"], ["", "user"], "\\login", "\\\\user\\");
  }

  lemma LoginTail()
    ensures [SEP] + Join(["gamename", "ccgenzh", "id", "1", "final", ""], SEP) == "\\gamename\\ccgenzh" + "\\id\\1" + "\\final\\"
  {
    assert ["gamename", "ccgenzh", "id", "1", "final", ""] == ["gamename", "ccgenzh"] + ["id", "1"] + ["final", ""];
    GameNameRun();
    assert [SEP] + Join(["id", "1"], SEP) == "\\id\\1" by { JoinTwo("id", "1"); }
    FinalRun();
    ThreeRunsAfter(["gamename", "ccgenzh"], ["id", "1"], ["final", ""], "\\gamename\\ccgenzh", "\\id\\1", "\\final\\");
  }

  /** Three runs whose joins are known, joined after a separator. */
  lemma ThreeRunsAfter(a: seq<string>, b: seq<string>, c: seq<string>, ja: string, jb: string, jc: string)
    requires |a| >= 1 && |b| >= 1 && |c| >= 1
    requires [SEP] + Join(a, SEP) == ja && [SEP] + Join(b, SEP) == jb && [SEP] + Join(c, SEP) == jc
    ensures [SEP] + Join(a + b + c, SEP) == ja + jb + jc
  {
    JoinRuns(a, b, c);
  }

  lemma HostHead()
    ensures Join(["", "heartbeat", "", "gamename", "ccgenzh", "gamever", "1.04", "hostname"], SEP) + [SEP]
            == "\\heartbeat\\" + "\\gamename\\ccgenzh" + "\\gamever\\1.04" + "\\hostname\\"
  {
    var x := ["", "heartbeat", "", "gamename", "ccgenzh"];
    assert ["", "heartbeat", "", "gamename", "ccgenzh", "gamever", "1.04", "hostname"] == x + ["gamever", "1.04"] + ["hostname"];
    HeartbeatGameName();
    GameVerRun();
    NameRun("hostname");
    ThreeRuns(x, ["gamever", "1.04"], ["hostname"], "\\heartbeat\\" + "\\gamename\\ccgenzh", "\\gamever\\1.04", "\\hostname\\");
  }

  /** Three runs whose joins are known, joined and closed by a separator. */
  lemma ThreeRuns(a: seq<string>, b: seq<string>, c: seq<string>, ja: string, jb: string, jc: string)
    requires |a| >= 1 && |b| >= 1 && |c| >= 1
    requires Join(a, SEP) == ja && [SEP] + Join(b, SEP) == jb && [SEP] + Join(c, SEP) + [SEP] == jc
    ensures Join(a + b + c, SEP) + [SEP] == ja + jb + jc
  {
    JoinRuns(a, b, c);
  }

  lemma GameVerRun()
    ensures [SEP] + Join(["gamever", "1.04"], SEP) == "\\gamever\\1.04"
  {
    JoinTwo("gamever", "1.04");
  }

  /** A run of one field name, between separators. */
  lemma NameRun(name: string)
    ensures [SEP] + Join([name], SEP) + [SEP] == "\\" + name + "\\"
  {
  }

  /** The opening of both the host registration and the heartbeat. */
  lemma HeartbeatGameName()
    ensures Join(["", "heartbeat", "", "gamename", "ccgenzh"], SEP) == "\\heartbeat\\" + "\\gamename\\ccgenzh"
  {
    assert ["", "heartbeat", "", "gamename", "ccgenzh"] == ["", "heartbeat", ""] + ["gamename", "ccgenzh"];
    HeartbeatKey();
    GameNameRun();
    TwoRuns(["", "heartbeat", ""], ["gamename", "ccgenzh"], "\\heartbeat\\", "\\gamename\\ccgenzh");
  }

  /** Two runs whose joins are known, joined. */
  lemma TwoRuns(a: seq<string>, b: seq<string>, ja: string, jb: string)
    requires |a| >= 1 && |b| >= 1
    requires Join(a, SEP) == ja && [SEP] + Join(b, SEP) == jb
    ensures Join(a + b, SEP) == ja + jb
  {
    JoinAppend(a, b);
  }

  /** Two runs whose joins are known, joined and closed by a separator. */
  lemma TwoRunsClosed(a: seq<string>, b: seq<string>, ja: string, jb: string)
    requires |a| >= 1 && |b| >= 1
    requires Join(a, SEP) == ja && [SEP] + Join(b, SEP) + [SEP] == jb
    ensures Join(a + b, SEP) + [SEP] == ja + jb
  {
    JoinAppend(a, b);
  }

  lemma MapNameRun()
    ensures [SEP] + Join(["mapname", "Alpine Assault", "numplayers"], SEP) + [SEP] == "\\mapname\\Alpine Assault" + "\\numplayers\\"
  {
    assert ["mapname", "Alpine Assault", "numplayers"] == ["mapname", "Alpine Assault"] + ["numplayers"];
    assert [SEP] + Join(["mapname", "Alpine Assault"], SEP) == "\\mapname\\Alpine Assault" by { JoinTwo("mapname", "Alpine Assault"); }
    NameRun("numplayers");
    TwoRunsBetween(["mapname", "Alpine Assault"], ["numplayers"], "\\mapname\\Alpine Assault", "\\numplayers\\");
  }

  lemma GameModeRun()
    ensures [SEP] + Join(["gamemode", "openplaying", "password"], SEP) + [SEP] == "\\gamemode\\openplaying" + "\\password\\"
  {
    assert ["gamemode", "openplaying", "password"] == ["gamemode", "openplaying"] + ["password"];
    assert [SEP] + Join(["gamemode", "openplaying"], SEP) == "\\gamemode\\openplaying" by { JoinTwo("gamemode", "openplaying"); }
    NameRun("password");
    TwoRunsBetween(["gamemode", "openplaying"], ["password"], "\\gamemode\\openplaying", "\\password\\");
  }

  /** Two runs whose joins are known, joined between two separators. */
  lemma TwoRunsBetween(a: seq<string>, b: seq<string>, ja: string, jb: string)
    requires |a| >= 1 && |b| >= 1
    requires [SEP] + Join(a, SEP) == ja && [SEP] + Join(b, SEP) + [SEP] == jb
    ensures [SEP] + Join(a + b, SEP) + [SEP] == ja + jb
  {
    JoinAppend(a, b);
    var s, x, y := [SEP], Join(a, SEP), Join(b, SEP);
    calc {
      s + (x + s + y) + s;
      { ConcatAssoc(s, x + s, y); }
      (s + (x + s)) + y + s;
      { ConcatAssoc(s, x, s); }
      ((s + x) + s) + y + s;
      { ConcatAssoc(s + x, s, y); }
      (s + x) + (s + y) + s;
      { ConcatAssoc(s + x, s + y, s); }
      (s + x) + (s + y + s);
    }
  }

  lemma HeartbeatHead()
    ensures Join(["", "heartbeat", "", "gamename", "ccgenzh", "sesskey"], SEP) + [SEP] == "\\heartbeat\\" + "\\gamename\\ccgenzh" + "\\sesskey\\"
  {
    var x := ["", "heartbeat", "", "gamename", "ccgenzh"];
    assert ["", "heartbeat", "", "gamename", "ccgenzh", "sesskey"] == x + ["sesskey"];
    HeartbeatGameName();
    NameRun("sesskey");
    TwoRunsClosed(x, ["sesskey"], "\\heartbeat\\" + "\\gamename\\ccgenzh", "\\sesskey\\");
  }

  lemma NatNegHead()
    ensures Join(["", "natneg", "", "cookie"], SEP) + [SEP] == "\\natneg\\" + "\\cookie\\"
  {
    assert ["", "natneg", "", "cookie"] == ["", "natneg", ""] + ["cookie"];
    JoinThree("", "natneg", "");
    NameRun("cookie");
    TwoRunsClosed(["", "natneg", ""], ["cookie"], "\\natneg\\", "\\cookie\\");
  }

  lemma PasswordKey() ensures [SEP] + "password" + [SEP] == "\\password\\" { }
  lemma HostPortKey() ensures [SEP] + "hostport" + [SEP] == "\\hostport\\" { }
  lemma MaxPlayersKey() ensures [SEP] + "maxplayers" + [SEP] == "\\maxplayers\\" { }

  lemma NatNegKeys()
    ensures [SEP] + "ip" + [SEP] == "\\ip\\"
    ensures [SEP] + "port" + [SEP] == "\\port\\"
    ensures [SEP] + "localport" + [SEP] == "\\localport\\"
  {
  }

  lemma LoginLiterals()
    ensures Join(["", "login", "", "user"], SEP) + [SEP] == "\\login\\\\user\\"
    ensures [SEP] + "password" + [SEP] == "\\password\\"
    ensures [SEP] + Join(["gamename", "ccgenzh", "id", "1", "final", ""], SEP) == "\\gamename\\ccgenzh\\id\\1\\final\\"
  {
    LoginHead(); PasswordKey(); LoginTail(); LoginTailText();
  }

  lemma LoginTailText()
    ensures "\\gamename\\ccgenzh\\id\\1\\final\\" == "\\gamename\\ccgenzh" + "\\id\\1" + "\\final\\"
  {
  }

  lemma HostLiterals()
    ensures Join(["", "heartbeat", "", "gamename", "ccgenzh", "gamever", "1.04", "hostname"], SEP) + [SEP]
            == "\\heartbeat\\" + "\\gamename\\ccgenzh" + "\\gamever\\1.04" + "\\hostname\\"
    ensures [SEP] + "hostport" + [SEP] == "\\hostport\\"
    ensures [SEP] + Join(["mapname", "Alpine Assault", "numplayers"], SEP) + [SEP] == "\\mapname\\Alpine Assault" + "\\numplayers\\"
    ensures [SEP] + "maxplayers" + [SEP] == "\\maxplayers\\"
    ensures [SEP] + Join(["gamemode", "openplaying", "password"], SEP) + [SEP] == "\\gamemode\\openplaying" + "\\password\\"
    ensures [SEP] + Join(["final", ""], SEP) == "\\final\\"
  {
    HostHead(); HostPortKey(); MapNameRun(); MaxPlayersKey(); GameModeRun(); FinalRun();
  }

  lemma HeartbeatLiterals()
    ensures Join(["", "heartbeat", "", "gamename", "ccgenzh", "sesskey"], SEP) + [SEP] == "\\heartbeat\\" + "\\gamename\\ccgenzh" + "\\sesskey\\"
    ensures [SEP] + Join(["final", ""], SEP) == "\\final\\"
  {
    HeartbeatHead(); FinalRun();
  }

  lemma NatNegLiterals()
    ensures Join(["", "natneg", "", "cookie"], SEP) + [SEP] == "\\natneg\\" + "\\cookie\\"
    ensures [SEP] + "ip" + [SEP] == "\\ip\\"
    ensures [SEP] + "port" + [SEP] == "\\port\\"
    ensures [SEP] + "localport" + [SEP] == "\\localport\\"
    ensures [SEP] + Join(["final", ""], SEP) == "\\final\\"
  {
    NatNegHead(); NatNegKeys(); FinalRun();
  }

  lemma LoginJoin(username: string, password: string)
    ensures Join(LoginFields(username, password), SEP) == LoginRequest(username, password)
  {
    var a0 := ["", "login", "", "user"];
    var a2 := ["gamename", "ccgenzh", "id", "1", "final", ""];
    var t3 := [password] + a2;
    var t2 := ["password"] + t3;
    var t1 := [username] + t2;
    assert LoginFields(username, password) == a0 + t1;
    JoinAppend(a0, t1);
    JoinAppend([username], t2);
    JoinAppend(["password"], t3);
    JoinAppend([password], a2);
    LoginLiterals();
    var j0, j2 := Join(a0, SEP), Join(a2, SEP);
    assert Join(LoginFields(username, password), SEP) ==
      j0 + [SEP] + (username + [SEP] + ("password" + [SEP] + (password + [SEP] + j2)));
    LoginNesting(j0, username, password, j2);
  }

  /** Moving the parentheses of the joined login fields. */
  lemma LoginNesting(j0: string, username: string, password: string, j2: string)
    requires j0 + [SEP] == "\\login\\\\user\\"
    requires [SEP] + j2 == "\\gamename\\ccgenzh\\id\\1\\final\\"
    ensures j0 + [SEP] + (username + [SEP] + ("password" + [SEP] + (password + [SEP] + j2)))
      == LoginRequest(username, password)
  {
    calc {
      j0 + [SEP] + (username + [SEP] + ("password" + [SEP] + (password + [SEP] + j2)));
      (j0 + [SEP]) + username + ([SEP] + "password" + [SEP]) + password + ([SEP] + j2);
    }
  }

  lemma LoginFieldsFree(username: string, password: string)
    requires Free(username, SEP) && Free(password, SEP)
    ensures forall i :: 0 <= i < |LoginFields(username, password)| ==> Free(LoginFields(username, password)[i], SEP)
  {
  }

  /** The login request is its fields between backslashes, and splitting it
      at backslashes gives them back, the user name and password included. */
  lemma LoginRequestFields(username: string, password: string)
    requires Free(username, SEP) && Free(password, SEP)
    ensures Join(LoginFields(username, password), SEP) == LoginRequest(username, password)
    ensures Split(LoginRequest(username, password), SEP) == LoginFields(username, password)
  {
    LoginJoin(username, password);
    LoginFieldsFree(username, password);
    SplitJoin(LoginFields(username, password), SEP);
  }

  lemma HostJoin(hostName: string, game: GameSessionInfo)
    ensures Join(HostFields(hostName, game), SEP) == HostRequest(hostName, game)
  {
    var port, cur, max, pw := NatToString(game.hostPort), NatToString(game.curPlayers), NatToString(game.maxPlayers), PasswordFlag(game.requiresPassword);
    HostFieldRuns(hostName, game);
    HostJoinNested(HOST_HEAD, hostName, port, HOST_MAP, cur, max, HOST_MODE, pw, FINAL);
    HostLiterals();
    var j0, j2, j4, j5 := Join(HOST_HEAD, SEP), Join(HOST_MAP, SEP), Join(HOST_MODE, SEP), Join(FINAL, SEP);
    HostNesting(j0, hostName, port, j2, cur, max, j4, pw, j5);
    HostLiteralRuns(j0, hostName, port, j2, cur, max, j4, pw, j5);
  }

  /** The host fields as literal runs around the fields that vary. */
  lemma HostFieldRuns(hostName: string, game: GameSessionInfo)
    ensures var port, cur, max, pw := NatToString(game.hostPort), NatToString(game.curPlayers), NatToString(game.maxPlayers), PasswordFlag(game.requiresPassword);
      HostFields(hostName, game) == HOST_HEAD + ([hostName] + (["hostport"] + ([port] + (HOST_MAP + ([cur] + (["maxplayers"] + ([max] + (HOST_MODE + ([pw] + FINAL)))))))))
  {
  }

  const HOST_HEAD: seq<string> := ["", "heartbeat", "", "gamename", "ccgenzh", "gamever", "1.04", "hostname"]
  const HOST_MAP: seq<string> := ["mapname", "Alpine Assault", "numplayers"]
  const HOST_MODE: seq<string> := ["gamemode", "openplaying", "password"]
  const FINAL: seq<string> := ["final", ""]

  /** The joined host fields, one separator at a time, for any literal runs. */
  lemma HostJoinNested(a0: seq<string>, hostName: string, port: string, a2: seq<string>, cur: string, max: string,
                       a4: seq<string>, pw: string, a5: seq<string>)
    requires |a0| >= 1 && |a2| >= 1 && |a4| >= 1 && |a5| >= 1
    ensures Join(a0 + ([hostName] + (["hostport"] + ([port] + (a2 + ([cur] + (["maxplayers"] + ([max] + (a4 + ([pw] + a5))))))))), SEP)
      == Join(a0, SEP) + [SEP] + (hostName + [SEP] + ("hostport" + [SEP] + (port + [SEP] + (Join(a2, SEP) + [SEP]
        + (cur + [SEP] + ("maxplayers" + [SEP] + (max + [SEP] + (Join(a4, SEP) + [SEP] + (pw + [SEP] + Join(a5, SEP))))))))))
  {
    var t9 := [pw] + a5;
    var t8 := a4 + t9;
    var t7 := [max] + t8;
    var t6 := ["maxplayers"] + t7;
    var t5 := [cur] + t6;
    var t4 := a2 + t5;
    var t3 := [port] + t4;
    var t2 := ["hostport"] + t3;
    var t1 := [hostName] + t2;
    JoinAppend(a0, t1);
    JoinAppend([hostName], t2);
    JoinAppend(["hostport"], t3);
    JoinAppend([port], t4);
    JoinAppend(a2, t5);
    JoinAppend([cur], t6);
    JoinAppend(["maxplayers"], t7);
    JoinAppend([max], t8);
    JoinAppend(a4, t9);
    JoinAppend([pw], a5);
  }

  /** Moving the parentheses of the joined host fields. */
  lemma HostNesting(j0: string, hostName: string, port: string, j2: string, cur: string, max: string, j4: string, pw: string, j5: string)
    ensures j0 + [SEP] + (hostName + [SEP] + ("hostport" + [SEP] + (port + [SEP] + (j2 + [SEP] + (cur + [SEP] + ("maxplayers" + [SEP]
        + (max + [SEP] + (j4 + [SEP] + (pw + [SEP] + j5)))))))))
      == (j0 + [SEP]) + hostName + ([SEP] + "hostport" + [SEP]) + port + ([SEP] + j2 + [SEP]) + cur + ([SEP] + "maxplayers" + [SEP]) + max
        + ([SEP] + j4 + [SEP]) + pw + ([SEP] + j5)
  {
  }
  /** The joined host fields with their literal stretches written as in the request. */
  lemma HostLiteralRuns(j0: string, hostName: string, port: string, j2: string, cur: string, max: string, j4: string, pw: string, j5: string)
    requires j0 + [SEP] == "\\heartbeat\\" + "\\gamename\\ccgenzh" + "\\gamever\\1.04" + "\\hostname\\"
    requires [SEP] + j2 + [SEP] == "\\mapname\\Alpine Assault" + "\\numplayers\\"
    requires [SEP] + j4 + [SEP] == "\\gamemode\\openplaying" + "\\password\\"
    requires [SEP] + j5 == "\\final\\"
    requires [SEP] + "hostport" + [SEP] == "\\hostport\\"
    requires [SEP] + "maxplayers" + [SEP] == "\\maxplayers\\"
    ensures (j0 + [SEP]) + hostName + ([SEP] + "hostport" + [SEP]) + port + ([SEP] + j2 + [SEP]) + cur + ([SEP] + "maxplayers" + [SEP]) + max
        + ([SEP] + j4 + [SEP]) + pw + ([SEP] + j5)
      == "\\heartbeat\\" + "\\gamename\\ccgenzh" + "\\gamever\\1.04"
         + "\\hostname\\" + hostName
         + "\\hostport\\" + port
         + "\\mapname\\Alpine Assault"
         + "\\numplayers\\" + cur
         + "\\maxplayers\\" + max
         + "\\gamemode\\openplaying"
         + "\\password\\" + pw
         + "\\final\\"
  {
  }

  predicate FieldsFree(fields: seq<string>) {
    forall i :: 0 <= i < |fields| ==> Free(fields[i], SEP)
  }

  lemma FieldsFreeAppend(a: seq<string>, b: seq<string>)
    requires FieldsFree(a) && FieldsFree(b)
    ensures FieldsFree(a + b)
  {
    forall i | 0 <= i < |a + b| ensures Free((a + b)[i], SEP) {
      if i >= |a| {
        assert (a + b)[i] == b[i - |a|];
      }
    }
  }

  lemma HostRunsFree()
    ensures FieldsFree(HOST_HEAD) && FieldsFree(HOST_MAP) && FieldsFree(HOST_MODE) && FieldsFree(FINAL)
    ensures FieldsFree(["hostport"]) && FieldsFree(["maxplayers"])
  {
  }

  lemma HostFieldsFree(hostName: string, game: GameSessionInfo)
    requires Free(hostName, SEP)
    ensures forall i :: 0 <= i < |HostFields(hostName, game)| ==> Free(HostFields(hostName, game)[i], SEP)
  {
    var port, cur, max, pw := NatToString(game.hostPort), NatToString(game.curPlayers), NatToString(game.maxPlayers), PasswordFlag(game.requiresPassword);
    DigitsFree(port);
    DigitsFree(cur);
    DigitsFree(max);
    assert FieldsFree([hostName]) && FieldsFree([port]) && FieldsFree([cur]) && FieldsFree([max]) && FieldsFree([pw]);
    HostRunsFree();
    FieldsFreeAppend([pw], FINAL);
    FieldsFreeAppend(HOST_MODE, [pw] + FINAL);
    FieldsFreeAppend([max], HOST_MODE + ([pw] + FINAL));
    FieldsFreeAppend(["maxplayers"], [max] + (HOST_MODE + ([pw] + FINAL)));
    FieldsFreeAppend([cur], ["maxplayers"] + ([max] + (HOST_MODE + ([pw] + FINAL))));
    FieldsFreeAppend(HOST_MAP, [cur] + (["maxplayers"] + ([max] + (HOST_MODE + ([pw] + FINAL)))));
    FieldsFreeAppend([port], HOST_MAP + ([cur] + (["maxplayers"] + ([max] + (HOST_MODE + ([pw] + FINAL))))));
    FieldsFreeAppend(["hostport"], [port] + (HOST_MAP + ([cur] + (["maxplayers"] + ([max] + (HOST_MODE + ([pw] + FINAL)))))));
    FieldsFreeAppend([hostName], ["hostport"] + ([port] + (HOST_MAP + ([cur] + (["maxplayers"] + ([max] + (HOST_MODE + ([pw] + FINAL))))))));
    FieldsFreeAppend(HOST_HEAD, [hostName] + (["hostport"] + ([port] + (HOST_MAP + ([cur] + (["maxplayers"] + ([max] + (HOST_MODE + ([pw] + FINAL)))))))));
    HostFieldRuns(hostName, game);
  }

  /** The host registration carries the host name, port, player counts and
      password flag as separate fields. */
  lemma HostRequestFields(hostName: string, game: GameSessionInfo)
    requires Free(hostName, SEP)
    ensures Join(HostFields(hostName, game), SEP) == HostRequest(hostName, game)
    ensures Split(HostRequest(hostName, game), SEP) == HostFields(hostName, game)
  {
    HostJoin(hostName, game);
    HostFieldsFree(hostName, game);
    SplitJoin(HostFields(hostName, game), SEP);
  }

  lemma HeartbeatJoin(sessionID: u32)
    ensures Join(HeartbeatFields(sessionID), SEP) == HeartbeatRequest(sessionID)
  {
    var id := NatToString(sessionID);
    var a0 := ["", "heartbeat", "", "gamename", "ccgenzh", "sesskey"];
    var a2 := ["final", ""];
    var f := HeartbeatFields(sessionID);
    assert f == a0 + [id] + a2;
    HeartbeatLiterals();
    JoinAppend(a0 + [id], a2);
    JoinAppend(a0, [id]);
    var j0, j2 := Join(a0, SEP), Join(a2, SEP);
    calc {
      Join(f, SEP);
      j0 + [SEP] + id + [SEP] + j2;
      (j0 + [SEP]) + id + ([SEP] + j2);
      HeartbeatRequest(sessionID);
    }
  }

  lemma HeartbeatFieldsFree(sessionID: u32)
    ensures forall i :: 0 <= i < |HeartbeatFields(sessionID)| ==> Free(HeartbeatFields(sessionID)[i], SEP)
  {
    DigitsFree(NatToString(sessionID));
  }

  /** The heartbeat's `sesskey` field decodes back to the session id. */
  lemma HeartbeatRequestFields(sessionID: u32)
    ensures Join(HeartbeatFields(sessionID), SEP) == HeartbeatRequest(sessionID)
    ensures Split(HeartbeatRequest(sessionID), SEP) == HeartbeatFields(sessionID)
    ensures DecimalValue(Split(HeartbeatRequest(sessionID), SEP)[6]) == sessionID
  {
    HeartbeatJoin(sessionID);
    HeartbeatFieldsFree(sessionID);
    SplitJoin(HeartbeatFields(sessionID), SEP);
    DecimalRoundTrip(sessionID);
  }

  lemma NatNegJoin(info: NatNegotiationInfo)
    ensures Join(NatNegFields(info), SEP) == NatNegRequest(info)
  {
    var cookie, ip, port, local := info.cookie, info.targetIP, NatToString(info.targetPort), NatToString(info.localPort);
    var a0 := ["", "natneg", "", "cookie"];
    var a2 := ["final", ""];
    var t7 := [local] + a2;
    var t6 := ["localport"] + t7;
    var t5 := [port] + t6;
    var t4 := ["port"] + t5;
    var t3 := [ip] + t4;
    var t2 := ["ip"] + t3;
    var t1 := [cookie] + t2;
    assert NatNegFields(info) == a0 + t1;
    JoinAppend(a0, t1);
    JoinAppend([cookie], t2);
    JoinAppend(["ip"], t3);
    JoinAppend([ip], t4);
    JoinAppend(["port"], t5);
    JoinAppend([port], t6);
    JoinAppend(["localport"], t7);
    JoinAppend([local], a2);
    NatNegLiterals();
    var j0, j2 := Join(a0, SEP), Join(a2, SEP);
    assert Join(NatNegFields(info), SEP) ==
      j0 + [SEP] + (cookie + [SEP] + ("ip" + [SEP] + (ip + [SEP] + ("port" + [SEP] + (port + [SEP] + ("localport" + [SEP] + (local + [SEP] + j2)))))));
    NatNegNesting(j0, cookie, ip, port, local, j2);
    NatNegLiteralRuns(j0, cookie, ip, port, local, j2);
  }

  lemma NatNegNesting(j0: string, cookie: string, ip: string, port: string, local: string, j2: string)
    ensures j0 + [SEP] + (cookie + [SEP] + ("ip" + [SEP] + (ip + [SEP] + ("port" + [SEP] + (port + [SEP] + ("localport" + [SEP] + (local + [SEP] + j2)))))))
      == (j0 + [SEP]) + cookie + ([SEP] + "ip" + [SEP]) + ip + ([SEP] + "port" + [SEP]) + port + ([SEP] + "localport" + [SEP]) + local + ([SEP] + j2)
  {
  }

  lemma NatNegLiteralRuns(j0: string, cookie: string, ip: string, port: string, local: string, j2: string)
    requires j0 + [SEP] == "\\natneg\\" + "\\cookie\\"
    requires [SEP] + "ip" + [SEP] == "\\ip\\"
    requires [SEP] + "port" + [SEP] == "\\port\\"
    requires [SEP] + "localport" + [SEP] == "\\localport\\"
    requires [SEP] + j2 == "\\final\\"
    ensures (j0 + [SEP]) + cookie + ([SEP] + "ip" + [SEP]) + ip + ([SEP] + "port" + [SEP]) + port + ([SEP] + "localport" + [SEP]) + local + ([SEP] + j2)
      == "\\natneg\\" + "\\cookie\\" + cookie + "\\ip\\" + ip + "\\port\\" + port + "\\localport\\" + local + "\\final\\"
  {
  }

  lemma NatNegFieldsFree(info: NatNegotiationInfo)
    requires Free(info.cookie, SEP) && Free(info.targetIP, SEP)
    ensures forall i :: 0 <= i < |NatNegFields(info)| ==> Free(NatNegFields(info)[i], SEP)
  {
    DigitsFree(NatToString(info.targetPort));
    DigitsFree(NatToString(info.localPort));
  }

  lemma NatNegRequestFields(info: NatNegotiationInfo)
    requires Free(info.cookie, SEP) && Free(info.targetIP, SEP)
    ensures Join(NatNegFields(info), SEP) == NatNegRequest(info)
    ensures Split(NatNegRequest(info), SEP) == NatNegFields(info)
  {
    NatNegJoin(info);
    NatNegFieldsFree(info);
    SplitJoin(NatNegFields(info), SEP);
  }

  // ---- `\error\` detection and the lazy error-text capture ----

  const ERROR_KEY: string := "\\error\\"
  const UNKNOWN_ERROR: string := "Unknown error"

  /** `response.find("\\error\\") != npos`. */
  predicate HasError(response: string) {
    Contains(response, ERROR_KEY)
  }

  /** The characters the regular expression's `.` matches: all but the line
      terminators a `char` can hold. */
  predicate LineChar(c: char) {
    c != '\n' && c != '\r'
  }

  /** The first position at or after `j` holding a backslash or a line
      terminator, or `|s|`. */
  function Stop(s: string, j: nat): (r: nat)
    requires j <= |s|
    ensures j <= r <= |s|
    ensures forall k :: j <= k < r ==> s[k] != SEP && LineChar(s[k])
    ensures r < |s| ==> s[r] == SEP || !LineChar(s[r])
    decreases |s| - j
  {
    if j == |s| || s[j] == SEP || !LineChar(s[j]) then j else Stop(s, j + 1)
  }

  /** The capture of `\\error\\(.+?)\\` for a match starting at `p`, if there
      is one: one character `.` matches, then the shortest run of `.` up to
      a backslash. */
  function ErrorMatchAt(s: string, p: nat): Option<string> {
    var q := p + |ERROR_KEY|;
    if OccursAt(s, ERROR_KEY, p) && q < |s| && LineChar(s[q]) then
      var j := Stop(s, q + 1);
      if j < |s| && s[j] == SEP then Some(s[q..j]) else None
    else None
  }

  /** `regex_search`: the first start position at or after `from` where the
      pattern matches, with its capture. */
  function ErrorSearch(s: string, from: nat): (r: Option<(nat, string)>)
    ensures r.Some? ==> from <= r.value.0 && ErrorMatchAt(s, r.value.0) == Some(r.value.1)
    ensures r.Some? ==> forall p :: from <= p < r.value.0 ==> ErrorMatchAt(s, p).None?
    ensures r.None? ==> forall p :: from <= p ==> ErrorMatchAt(s, p).None?
    decreases |s| - from
  {
    if from >= |s| then None
    else match ErrorMatchAt(s, from)
      case Some(t) => Some((from, t))
      case None => ErrorSearch(s, from + 1)
  }

  /** The logged error message: the first capture, or "Unknown error". */
  function ErrorText(response: string): string {
    match ErrorSearch(response, 0)
    case Some(m) => m.1
    case None => UNKNOWN_ERROR
  }

  /** What a found error message is: the shortest non-empty text without line
      breaks between the leftmost `\error\` that has one and the next
      backslash (its first character may itself be a backslash). */
  lemma ErrorTextShape(response: string)
    requires ErrorSearch(response, 0).Some?
    ensures var t := ErrorText(response);
      && |t| >= 1 && LineChar(t[0])
      && (forall k :: 1 <= k < |t| ==> t[k] != SEP && LineChar(t[k]))
      && exists p :: OccursAt(response, ERROR_KEY + t + [SEP], p)
  {
    var (p, t) := ErrorSearch(response, 0).value;
    ErrorMatchChars(response, p, t);
    ErrorMatchOccurs(response, p, t);
  }

  lemma ErrorMatchChars(s: string, p: nat, t: string)
    requires ErrorMatchAt(s, p) == Some(t)
    ensures |t| >= 1 && LineChar(t[0])
    ensures forall k :: 1 <= k < |t| ==> t[k] != SEP && LineChar(t[k])
  {
    var q := p + |ERROR_KEY|;
    var j := Stop(s, q + 1);
    assert t == s[q..j];
    forall k | 1 <= k < |t| ensures t[k] != SEP && LineChar(t[k]) {
      assert t[k] == s[q + k];
    }
  }

  lemma ErrorMatchOccurs(s: string, p: nat, t: string)
    requires ErrorMatchAt(s, p) == Some(t)
    ensures OccursAt(s, ERROR_KEY + t + [SEP], p)
  {
    var q := p + |ERROR_KEY|;
    var j := Stop(s, q + 1);
    OccursThen(s, ERROR_KEY, p, j + 1 - q);
    assert s[q..j + 1] == t + [SEP];
    assert ERROR_KEY + t + [SEP] == ERROR_KEY + (t + [SEP]);
  }

  /** A response that is exactly `\error\`, a message and a backslash
      reports that message, when the message is non-empty, has no line
      breaks and no backslash after its first character. */
  lemma ErrorTextOfMessage(t: string)
    requires |t| >= 1 && LineChar(t[0])
    requires forall k :: 1 <= k < |t| ==> t[k] != SEP && LineChar(t[k])
    ensures HasError(ERROR_KEY + t + [SEP])
    ensures ErrorText(ERROR_KEY + t + [SEP]) == t
  {
    var s := ERROR_KEY + t + [SEP];
    var n := |ERROR_KEY|;
    assert s[0..n] == ERROR_KEY;
    assert OccursAt(s, ERROR_KEY, 0);
    ContainsIff(s, ERROR_KEY);
    forall k | n + 1 <= k < n + |t| ensures s[k] != SEP && LineChar(s[k]) {
      assert s[k] == t[k - n];
    }
    StopAt(s, n + 1, n + |t|);
    assert s[n..n + |t|] == t;
  }

  /** An authentication-failure reply: `\error\Bad Password\`. */
  lemma BadPasswordText()
    ensures HasError("\\error\\Bad Password\\")
    ensures ErrorText("\\error\\Bad Password\\") == "Bad Password"
  {
    assert "\\error\\Bad Password\\" == ERROR_KEY + "Bad Password" + [SEP];
    ErrorTextOfMessage("Bad Password");
  }

  /** `Stop` reaches `r` when nothing before it stops the scan and `r` does. */
  lemma {:induction false} StopAt(s: string, j: nat, r: nat)
    requires j <= r < |s|
    requires forall k :: j <= k < r ==> s[k] != SEP && LineChar(s[k])
    requires s[r] == SEP
    ensures Stop(s, j) == r
    decreases r - j
  {
    if j < r {
      StopAt(s, j + 1, r);
    }
  }

  /** An `\error\` with nothing after it has no capture. */
  lemma BareErrorIsUnknown()
    ensures HasError("\\error\\")
    ensures ErrorText("\\error\\") == UNKNOWN_ERROR
  {
    var s := "\\error\\";
    assert s[0..7] == ERROR_KEY;
    assert OccursAt(s, ERROR_KEY, 0);
    ContainsIff(s, ERROR_KEY);
  }

  // ---- greedy captures: `\\profileid\\(\d+)`, `\\ip\\([\d\.]+)`, `\\port\\(\d+)` ----

  /** The character class of a capture group. */
  datatype CharClass = Digits | DigitsAndDots

  predicate InClass(c: char, cls: CharClass) {
    IsDigit(c) || (cls == DigitsAndDots && c == '.')
  }

  /** The greedy run of class characters starting at `i`. */
  function ClassRun(s: string, i: nat, cls: CharClass): (n: nat)
    requires i <= |s|
    ensures i + n <= |s|
    ensures forall k :: i <= k < i + n ==> InClass(s[k], cls)
    ensures i + n == |s| || !InClass(s[i + n], cls)
    decreases |s| - i
  {
    if i < |s| && InClass(s[i], cls) then 1 + ClassRun(s, i + 1, cls) else 0
  }

  /** The pattern `key(class+)` matches at `p`. */
  predicate CaptureAt(s: string, key: string, cls: CharClass, p: nat) {
    OccursAt(s, key, p) && p + |key| < |s| && InClass(s[p + |key|], cls)
  }

  function CaptureSearch(s: string, key: string, cls: CharClass, from: nat): (r: Option<nat>)
    ensures r.Some? ==> from <= r.value && CaptureAt(s, key, cls, r.value)
    ensures r.Some? ==> forall q :: from <= q < r.value ==> !CaptureAt(s, key, cls, q)
    ensures r.None? ==> forall q :: from <= q ==> !CaptureAt(s, key, cls, q)
    decreases |s| - from
  {
    if from >= |s| then None
    else if CaptureAt(s, key, cls, from) then Some(from)
    else CaptureSearch(s, key, cls, from + 1)
  }

  /** Group 1 of the leftmost match of `key(class+)`: present exactly when
      the pattern matches somewhere. */
  function Capture(s: string, key: string, cls: CharClass): (r: Option<string>)
    ensures r.Some? ==> |r.value| >= 1 && (forall k :: 0 <= k < |r.value| ==> InClass(r.value[k], cls))
    ensures r.Some? && cls == Digits ==> AllDigits(r.value)
    ensures r.None? <==> forall q: nat :: !CaptureAt(s, key, cls, q)
  {
    match CaptureSearch(s, key, cls, 0)
    case Some(p) =>
      var start := p + |key|;
      Some(s[start..start + ClassRun(s, start, cls)])
    case None => None
  }

  /** A capture is the key's text followed by the longest run of class
      characters there, at the first place the key is followed by one. */
  lemma CaptureShape(s: string, key: string, cls: CharClass)
    requires Capture(s, key, cls).Some?
    ensures var v := Capture(s, key, cls).value;
      exists p: nat :: && OccursAt(s, key + v, p)
                       && (p + |key| + |v| == |s| || !InClass(s[p + |key| + |v|], cls))
                       && forall q: nat :: q < p ==> !CaptureAt(s, key, cls, q)
  {
    var p := CaptureSearch(s, key, cls, 0).value;
    RunAfterKey(s, key, cls, p);
  }

  /** Where the pattern matches, the key and the run of class characters
      after it occur there, and the run cannot be extended. */
  lemma RunAfterKey(s: string, key: string, cls: CharClass, p: nat)
    requires CaptureAt(s, key, cls, p)
    ensures var start := p + |key|;
      var v := s[start..start + ClassRun(s, start, cls)];
      && OccursAt(s, key + v, p)
      && (p + |key| + |v| == |s| || !InClass(s[p + |key| + |v|], cls))
  {
    var start := p + |key|;
    OccursThen(s, key, p, ClassRun(s, start, cls));
  }

  const PROFILE_KEY: string := "\\profileid\\"
  const IP_KEY: string := "\\ip\\"
  const PORT_KEY: string := "\\port\\"

  /** `ULONG_MAX` where `unsigned long` is 32 bits wide. */
  const ULONG_MAX: nat := 0xFFFF_FFFF
  /** `INT_MAX`. */
  const INT_MAX: nat := 0x7FFF_FFFF

  // ---- interpreting responses ----

  /** What a login response does. `ProfileOutOfRange` is the capture that
      `std::stoul` rejects: the exception leaves the receiving thread. */
  datatype LoginOutcome =
    | AuthFailed(message: string)
    | LoggedIn(profileID: Option<u32>)
    | ProfileOutOfRange

  function InterpretLogin(response: string): (o: LoginOutcome)
    ensures o.AuthFailed? <==> HasError(response)
    ensures o.AuthFailed? ==> o.message == ErrorText(response)
    ensures o.LoggedIn? && o.profileID.Some? ==>
              Capture(response, PROFILE_KEY, Digits).Some? && DecimalValue(Capture(response, PROFILE_KEY, Digits).value) == o.profileID.value
    ensures o.LoggedIn? && o.profileID.None? ==> Capture(response, PROFILE_KEY, Digits).None?
    ensures o.ProfileOutOfRange? ==>
              Capture(response, PROFILE_KEY, Digits).Some? && DecimalValue(Capture(response, PROFILE_KEY, Digits).value) > ULONG_MAX
  {
    if HasError(response) then AuthFailed(ErrorText(response))
    else match Capture(response, PROFILE_KEY, Digits)
      case None => LoggedIn(None)
      case Some(d) =>
        var v := DecimalValue(d);
        if v > ULONG_MAX then ProfileOutOfRange else LoggedIn(Some(v))
  }

  /** A response that opens with a `profileid` field logs in with that
      number when it fits an `unsigned long`, and otherwise throws. */
  lemma LoginReportsProfile(id: nat, rest: string)
    requires rest == [] || rest[0] == SEP
    requires !HasError(PROFILE_KEY + NatToString(id) + rest)
    ensures id <= ULONG_MAX ==> InterpretLogin(PROFILE_KEY + NatToString(id) + rest) == LoggedIn(Some(id))
    ensures id > ULONG_MAX ==> InterpretLogin(PROFILE_KEY + NatToString(id) + rest) == ProfileOutOfRange
  {
    CaptureLeading(PROFILE_KEY, NatToString(id), rest);
    DecimalRoundTrip(id);
  }

  /** The greedy run is exactly the stretch of class characters before the
      first other character. */
  lemma ClassRunExact(s: string, i: nat, n: nat, cls: CharClass)
    requires i + n <= |s|
    requires forall k :: i <= k < i + n ==> InClass(s[k], cls)
    requires i + n == |s| || !InClass(s[i + n], cls)
    ensures ClassRun(s, i, cls) == n
  {
  }

  /** A digit capture right at the start of the response. */
  lemma CaptureLeading(key: string, d: string, rest: string)
    requires |d| >= 1 && AllDigits(d)
    requires rest == [] || !IsDigit(rest[0])
    ensures Capture(key + d + rest, key, Digits) == Some(d)
  {
    var s := key + d + rest;
    assert s[..|key|] == key && s[|key|] == d[0];
    assert CaptureAt(s, key, Digits, 0);
    forall k | |key| <= k < |key| + |d| ensures InClass(s[k], Digits) {
      assert s[k] == d[k - |key|];
    }
    if rest != [] {
      assert s[|key| + |d|] == rest[0];
    }
    ClassRunExact(s, |key|, |d|, Digits);
    assert s[|key|..|key| + |d|] == d;
  }

  /** The search finds the first match at or after `from`. */
  lemma {:induction false} CaptureSearchFinds(s: string, key: string, cls: CharClass, from: nat, p: nat)
    requires from <= p && CaptureAt(s, key, cls, p)
    requires forall q: nat :: from <= q < p ==> !CaptureAt(s, key, cls, q)
    ensures CaptureSearch(s, key, cls, from) == Some(p)
    decreases p - from
  {
    if from < p {
      CaptureSearchFinds(s, key, cls, from + 1, p);
    }
  }

  /** A response in which no `\error\` occurs. */
  lemma NoErrorKey(s: string)
    requires forall q :: 0 < q < |s| && s[q] == 'e' ==> s[q - 1] != SEP
    ensures !HasError(s)
  {
    ContainsIff(s, ERROR_KEY);
    forall p: int ensures !OccursAt(s, ERROR_KEY, p) {
      if 0 <= p && p + 7 <= |s| {
        var w := s[p..p + 7];
        assert w[0] == s[p] && w[1] == s[p + 1];
      }
    }
  }

  /** A key whose second character is nowhere preceded by a backslash has
      no match. */
  lemma NoKeyAt(s: string, key: string, cls: CharClass, q: nat)
    requires |key| >= 2 && key[0] == SEP
    requires forall k :: 0 < k < |s| && s[k] == key[1] ==> s[k - 1] != SEP
    ensures !CaptureAt(s, key, cls, q)
  {
    if q + |key| <= |s| {
      var w := s[q..q + |key|];
      assert w[0] == s[q] && w[1] == s[q + 1];
    }
  }

  /** What a NAT negotiation response does. `PortOutOfRange` is the capture
      that `std::stoi` rejects. */
  datatype NatOutcome =
    | NatFailed(message: string)
    | Negotiated(ip: string, port: u16)
    | PortOutOfRange

  /** The port: the captured decimal value truncated to 16 bits, or the one
      the negotiation was started for. */
  function InterpretNat(response: string, target: NatNegotiationInfo): (o: NatOutcome)
    ensures o.NatFailed? <==> HasError(response)
    ensures o.NatFailed? ==> o.message == ErrorText(response)
    ensures o.Negotiated? ==> o.ip == Capture(response, IP_KEY, DigitsAndDots).GetOr(target.targetIP)
    ensures o.Negotiated? && Capture(response, PORT_KEY, Digits).None? ==> o.port == target.targetPort
    ensures o.Negotiated? && Capture(response, PORT_KEY, Digits).Some? ==>
              var v := DecimalValue(Capture(response, PORT_KEY, Digits).value);
              v <= INT_MAX && o.port == v % TWO_16
    ensures o.PortOutOfRange? ==>
              Capture(response, PORT_KEY, Digits).Some? && DecimalValue(Capture(response, PORT_KEY, Digits).value) > INT_MAX
  {
    if HasError(response) then NatFailed(ErrorText(response))
    else
      var ip := Capture(response, IP_KEY, DigitsAndDots).GetOr(target.targetIP);
      match Capture(response, PORT_KEY, Digits)
      case None => Negotiated(ip, target.targetPort)
      case Some(d) =>
        var v := DecimalValue(d);
        if v > INT_MAX then PortOutOfRange else Negotiated(ip, ToU16(v))
  }

  /** A response without `ip` or `port` fields keeps the address the
      negotiation was started for. */
  lemma NatDefaultsToTarget(response: string, target: NatNegotiationInfo)
    requires !HasError(response)
    requires forall q: nat :: !CaptureAt(response, IP_KEY, DigitsAndDots, q)
    requires forall q: nat :: !CaptureAt(response, PORT_KEY, Digits, q)
    ensures InterpretNat(response, target) == Negotiated(target.targetIP, target.targetPort)
  {
  }

  /** Joining 192.168.1.10:16000 with a reply that
      names no address completes with exactly that address. */
  lemma NatExampleDefault()
    ensures InterpretNat("\\natneg\\ok\\final\\", NatNegotiationInfo("c", "192.168.1.10", 16000, 16500))
            == Negotiated("192.168.1.10", 16000)
  {
    var s := "\\natneg\\ok\\final\\";
    forall q: nat ensures !CaptureAt(s, IP_KEY, DigitsAndDots, q) {
      NoKeyAt(s, IP_KEY, DigitsAndDots, q);
    }
    forall q: nat ensures !CaptureAt(s, PORT_KEY, Digits, q) {
      NoKeyAt(s, PORT_KEY, Digits, q);
    }
    NoErrorKey(s);
    NatDefaultsToTarget(s, NatNegotiationInfo("c", "192.168.1.10", 16000, 16500));
  }

  /** A reply holding only a `port` field: a value beyond `INT_MAX` throws,
      one within it is truncated to 16 bits, and the address stays the one
      the negotiation was started for. */
  lemma NatPortField(v: nat, target: NatNegotiationInfo)
    ensures v > INT_MAX ==> InterpretNat(PORT_KEY + NatToString(v), target) == PortOutOfRange
    ensures v <= INT_MAX ==> InterpretNat(PORT_KEY + NatToString(v), target) == Negotiated(target.targetIP, v % TWO_16)
  {
    CaptureLeading(PORT_KEY, NatToString(v), []);
    assert PORT_KEY + NatToString(v) + [] == PORT_KEY + NatToString(v);
    DecimalRoundTrip(v);
    PortFieldPlain(v);
  }

  /** A bare `port` field holds neither an `e` nor an `i`, so neither
      `\error\` nor `\ip\` occurs in it. */
  lemma PortFieldPlain(v: nat)
    ensures !HasError(PORT_KEY + NatToString(v))
    ensures forall q: nat :: !CaptureAt(PORT_KEY + NatToString(v), IP_KEY, DigitsAndDots, q)
  {
    var s := PORT_KEY + NatToString(v);
    var d := NatToString(v);
    forall k | 0 <= k < |s| ensures s[k] != 'e' && s[k] != 'i' {
      if k >= |PORT_KEY| {
        assert s[k] == d[k - |PORT_KEY|];
        assert IsDigit(d[k - |PORT_KEY|]);
      }
    }
    NoErrorKey(s);
    forall q: nat ensures !CaptureAt(s, IP_KEY, DigitsAndDots, q) {
      NoKeyAt(s, IP_KEY, DigitsAndDots, q);
    }
  }

  /** The 16-bit truncation: a reported port of 65536 + 16000 reads as 16000. */
  lemma NatPortTruncates(target: NatNegotiationInfo)
    ensures InterpretNat(PORT_KEY + NatToString(81536), target) == Negotiated(target.targetIP, 16000)
  {
    NatPortField(81536, target);
  }

  // ---- the placeholder game list ----

  /** Entry `i` of the list `ProcessGameListResponse` fabricates. */
  function SyntheticGame(i: nat): GameSessionInfo
    requires i < 3
  {
    GameSessionInfo(
      1000 + i,
      "Host" + NatToString(i),
      "192.168.1." + NatToString(10 + i),
      16000,
      "Test Game " + NatToString(i),
      1, 8,
      i % 2 == 0)
  }

  /** The fabricated games: consecutive ids from 1000, one player of eight,
      port 16000, a password on every other one. */
  lemma SyntheticGames(i: nat)
    requires i < 3
    ensures SyntheticGame(i).sessionID == 1000 + i
    ensures SyntheticGame(i).hostPort == 16000
    ensures SyntheticGame(i).curPlayers == 1 && SyntheticGame(i).maxPlayers == 8
    ensures SyntheticGame(i).requiresPassword <==> i % 2 == 0
  {
  }

  /** The fabricated games have distinct host addresses. */
  lemma SyntheticHostsDistinct(i: nat, j: nat)
    requires i < 3 && j < 3
    ensures SyntheticGame(i).hostIP == SyntheticGame(j).hostIP <==> i == j
  {
    if SyntheticGame(i).hostIP == SyntheticGame(j).hostIP {
      ConcatCancel("192.168.1.", NatToString(10 + i), NatToString(10 + j));
      DecimalRoundTrip(10 + i);
      DecimalRoundTrip(10 + j);
    }
  }

  // ---- the NAT cookie ----

  /** The 62 characters a random string is drawn from, in the order of the
      table: the digits, then the upper-case, then the lower-case letters. */
  const ALPHANUMERIC: string :=
    seq(10, i requires 0 <= i < 10 => ('0' as int + i) as char)
    + seq(26, i requires 0 <= i < 26 => ('A' as int + i) as char)
    + seq(26, i requires 0 <= i < 26 => ('a' as int + i) as char)

  predicate IsAlphanumeric(c: char) {
    '0' <= c <= '9' || 'A' <= c <= 'Z' || 'a' <= c <= 'z'
  }

  /** The table holds exactly the ASCII letters and digits. */
  lemma AlphabetIsAlphanumeric(c: char)
    ensures c in ALPHANUMERIC <==> IsAlphanumeric(c)
  {
    if '0' <= c <= '9' {
      assert ALPHANUMERIC[c as int - '0' as int] == c;
    } else if 'A' <= c <= 'Z' {
      assert ALPHANUMERIC[10 + (c as int - 'A' as int)] == c;
    } else if 'a' <= c <= 'z' {
      assert ALPHANUMERIC[36 + (c as int - 'a' as int)] == c;
    }
  }

  predicate Alphanumeric(s: string) {
    forall k :: 0 <= k < |s| ==> IsAlphanumeric(s[k])
  }

  /** `GenerateRandomString(length)`: `length` characters, each drawn from
      the table (the draw itself is left unconstrained). */
  method GenerateRandomString(length: nat) returns (s: string)
    ensures |s| == length && Alphanumeric(s)
  {
    s := [];
    var i := 0;
    while i < length
      invariant 0 <= i <= length
      invariant |s| == i && Alphanumeric(s)
    {
      var k :| 0 <= k < |ALPHANUMERIC|;
      AlphabetIsAlphanumeric(ALPHANUMERIC[k]);
      s := s + [ALPHANUMERIC[k]];
      i := i + 1;
    }
  }

  /** A drawn string never contains the field separator, so a cookie is
      always one field of the NAT request. */
  lemma AlphanumericFree(s: string)
    requires Alphanumeric(s)
    ensures Free(s, SEP)
  {
  }
}
