/** The texts the server sends while a connection authenticates, and how the client tells them
    apart: by substrings, a prefix, and a trailing colon. */
module Prompts {
  import opened Framing
  import opened Rooms
  import opened Delivery

  const WELCOME := Ascii("welcome to relay-go.") + Ascii(" /register or /login:")
  const ENTER := Ascii("enter /register or /login:")
  const INVALID := Ascii("invalid input. please ") + ENTER
  const ASK_USERNAME := Ascii("enter your username:")
  const ASK_PASSWORD := Ascii("enter your password:")
  const ASK_TOKEN := Ascii("enter your refresh token:")
  const LIMITED := Ascii("registration rate limit exceeded") + Ascii(" - try again later")
  const UNAVAILABLE := Ascii("auth service unavailable,") + Ascii(" please try again later")
  const LOGGED_IN := Ascii("user already logged in")
  const REGISTERED := Ascii("registration successful")
  const LOGIN_OK := Ascii("login successful")
  const FINAL := Ascii("refresh:")

  const REGISTER_COMMAND := Ascii("/register")
  const LOGIN_COMMAND := Ascii("/login")
  const REFRESH_COMMAND := Ascii("/refresh")

  const ALREADY := Ascii("already logged in")
  const SUCCESSFUL := Ascii("successful")
  const PASSWORD := Ascii("password")
  const USERNAME := Ascii("username")
  const REFRESH := Ascii("refresh")
  const COLON: byte := 58

  // ------------------------------------------------------------------- Go's strings package

  function LowerByte(b: byte): byte {
    if 65 <= b <= 90 then b + 32 else b
  }

  /** strings.ToLower on ASCII text. */
  function Lower(t: Text): (l: Text)
    ensures |l| == |t| && forall i | 0 <= i < |t| :: l[i] == LowerByte(t[i])
  {
    seq(|t|, i requires 0 <= i < |t| => LowerByte(t[i]))
  }

  predicate At(t: Text, i: int, part: Text) {
    0 <= i && i + |part| <= |t| && t[i..i + |part|] == part
  }

  /** strings.Contains. */
  predicate Includes(t: Text, part: Text) {
    exists i | 0 <= i <= |t| :: At(t, i, part)
  }

  predicate HasSuffix(t: Text, part: Text) {
    |part| <= |t| && t[|t| - |part|..] == part
  }

  /** The UTF-8 encodings of the characters unicode.IsSpace accepts. */
  predicate IsSpace(s: Text) {
    || (|s| == 1 && (9 <= s[0] <= 13 || s[0] == 32))
    || (|s| == 2 && s[0] == 0xC2 && (s[1] == 0x85 || s[1] == 0xA0))
    || (|s| == 3 && s[0] == 0xE1 && s[1] == 0x9A && s[2] == 0x80)
    || (|s| == 3 && s[0] == 0xE2 && s[1] == 0x80
        && (0x80 <= s[2] <= 0x8A || s[2] == 0xA8 || s[2] == 0xA9 || s[2] == 0xAF))
    || (|s| == 3 && s[0] == 0xE2 && s[1] == 0x81 && s[2] == 0x9F)
    || (|s| == 3 && s[0] == 0xE3 && s[1] == 0x80 && s[2] == 0x80)
  }

  function TrimLeft(t: Text): Text {
    if |t| >= 1 && IsSpace(t[..1]) then TrimLeft(t[1..])
    else if |t| >= 2 && IsSpace(t[..2]) then TrimLeft(t[2..])
    else if |t| >= 3 && IsSpace(t[..3]) then TrimLeft(t[3..])
    else t
  }

  function TrimRight(t: Text): Text {
    var n := |t|;
    if n >= 1 && IsSpace(t[n - 1..]) then TrimRight(t[..n - 1])
    else if n >= 2 && IsSpace(t[n - 2..]) then TrimRight(t[..n - 2])
    else if n >= 3 && IsSpace(t[n - 3..]) then TrimRight(t[..n - 3])
    else t
  }

  function TrimSpace(t: Text): Text {
    TrimRight(TrimLeft(t))
  }

  // ----------------------------------------------------------------- telling frames apart

  /** What a frame is to the client: nothing to answer, the last frame, one that ends the attempt,
      or a prompt (in lower case). */
  datatype Reading = Ignored | Final(token: Text) | Refused | Asked(prompt: Text)

  /** As runAuthHandshake tests them, in its order. */
  function Interactive(frame: Text): Reading {
    var prompt := Lower(frame);
    if Includes(prompt, ALREADY) then Ignored
    else if Includes(prompt, SUCCESSFUL) then Ignored
    else if FINAL <= prompt then Final(prompt[|FINAL|..])
    else if !HasSuffix(TrimSpace(prompt), [COLON]) then Ignored
    else Asked(prompt)
  }

  /** As runSilentAuth tests them. */
  function Silent(frame: Text): Reading {
    var prompt := Lower(frame);
    if Includes(prompt, SUCCESSFUL) then Ignored
    else if FINAL <= prompt then Final(prompt[|FINAL|..])
    else if !HasSuffix(TrimSpace(prompt), [COLON]) then Refused
    else Asked(prompt)
  }

  // ------------------------------------------------------------------ what the texts are

  lemma LacksByte(t: Text, part: Text, b: byte)
    requires b in part && b !in t
    ensures !Includes(t, part)
  {
    if i :| At(t, i, part) {
      assert b in t[i..i + |part|];
    }
  }

  lemma HasPart(a: string, part: string, b: string)
    ensures Includes(Ascii(a + part + b), Ascii(part))
  {
    assert At(Ascii(a + part + b), |a|, Ascii(part));
  }

  lemma AsciiConcat(a: string, b: string)
    ensures Ascii(a + b) == Ascii(a) + Ascii(b)
  {
  }

  /** A literal spelt with these characters only, none of them a capital. */
  predicate Spelt(s: string, letters: string) {
    && (forall c | c in s :: c in letters)
    && (forall c | c in letters :: 32 as char <= c < 65 as char || 90 as char < c < 127 as char)
  }

  lemma SpeltInLowerCase(s: string, t: Text, letters: string)
    requires Spelt(s, letters) && t == Ascii(s)
    ensures Lower(t) == t
  {
    assert forall i | 0 <= i < |s| :: s[i] in s;
  }

  lemma SpeltWithout(s: string, t: Text, letters: string, c: char, word: string, part: Text)
    requires Spelt(s, letters) && t == Ascii(s) && part == Ascii(word)
    requires c in word && c !in letters && c < 127 as char
    ensures !Includes(t, part)
  {
    assert forall i | 0 <= i < |s| :: s[i] in s;
    assert c as byte !in t;
    var i :| 0 <= i < |word| && word[i] == c;
    assert part[i] == c as byte;
    LacksByte(t, part, c as byte);
  }

  lemma NothingToTrim(t: Text)
    requires |t| > 0 && 33 <= t[0] < 127 && 33 <= t[|t| - 1] < 127
    ensures TrimSpace(t) == t
  {
    assert TrimLeft(t) == t;
    assert TrimRight(t) == t;
  }

  predicate Visible(b: byte) {
    33 <= b < 65 || 90 < b < 127
  }

  /** A lower-case text ending in a colon, without the words the client looks for first. */
  lemma ReadsPrompt(s: string, t: Text, letters: string)
    requires Spelt(s, letters) && t == Ascii(s)
    requires |t| > 0 && Visible(t[0]) && t[0] != FINAL[0] && t[|t| - 1] == COLON
    requires !Includes(t, SUCCESSFUL)
    ensures Silent(t) == Asked(t)
    ensures !Includes(t, ALREADY) ==> Interactive(t) == Asked(t)
  {
    SpeltInLowerCase(s, t, letters);
    NothingToTrim(t);
  }

  /** A text not ending in a colon is never answered. */
  lemma ReadsNotice(t: Text)
    requires |t| > 2 && Visible(t[0]) && Visible(t[|t| - 1]) && t[|t| - 1] != COLON
    requires LowerByte(t[2]) != FINAL[2]
    ensures Interactive(t) == Ignored
    ensures Silent(t) == if Includes(Lower(t), SUCCESSFUL) then Ignored else Refused
  {
    NothingToTrim(Lower(t));
  }

  lemma SpellsGreeting()
    ensures Spelt("welcome to relay-go.", "welcom tray-g./isn:")
  {
  }

  lemma SpellsChoices()
    ensures Spelt(" /register or /login:", "welcom tray-g./isn:")
  {
  }

  lemma SpellsWelcome()
    ensures Spelt("welcome to relay-go." + " /register or /login:", "welcom tray-g./isn:")
  {
    SpellsGreeting();
    SpellsChoices();
  }

  lemma WelcomeLacks(c: char, word: string, part: Text)
    requires part == Ascii(word) && c in word && c !in "welcom tray-g./isn:" && c < 127 as char
    ensures !Includes(WELCOME, part)
  {
    var a, b := "welcome to relay-go.", " /register or /login:";
    AsciiConcat(a, b);
    SpellsWelcome();
    SpeltWithout(a + b, WELCOME, "welcom tray-g./isn:", c, word, part);
  }

  lemma WelcomeIsPrompt()
    requires !Includes(WELCOME, SUCCESSFUL)
    ensures Silent(WELCOME) == Asked(WELCOME)
    ensures !Includes(WELCOME, ALREADY) ==> Interactive(WELCOME) == Asked(WELCOME)
  {
    var a, b := "welcome to relay-go.", " /register or /login:";
    AsciiConcat(a, b);
    SpellsWelcome();
    ReadsPrompt(a + b, WELCOME, "welcom tray-g./isn:");
  }

  lemma ReadsWelcome()
    ensures Interactive(WELCOME) == Silent(WELCOME) == Asked(WELCOME)
    ensures !Includes(WELCOME, REFRESH)
  {
    WelcomeLacks('u', "successful", SUCCESSFUL);
    WelcomeLacks('d', "already logged in", ALREADY);
    WelcomeLacks('f', "refresh", REFRESH);
    WelcomeIsPrompt();
  }

  lemma ReadsEnter()
    ensures Interactive(ENTER) == Asked(ENTER)
  {
    var s, letters := "enter /register or /login:", "entr /gisol:";
    assert Spelt(s, letters);
    SpeltWithout(s, ENTER, letters, 'u', "successful", SUCCESSFUL);
    SpeltWithout(s, ENTER, letters, 'a', "already logged in", ALREADY);
    ReadsPrompt(s, ENTER, letters);
  }

  lemma SpellsInvalidInput()
    ensures Spelt("invalid input. please ", "inval dput.seor/g:")
  {
  }

  lemma SpellsPleaseEnter()
    ensures Spelt("enter /register or /login:", "inval dput.seor/g:")
  {
  }

  lemma SpellsInvalid()
    ensures Spelt("invalid input. please " + "enter /register or /login:", "inval dput.seor/g:")
  {
    SpellsInvalidInput();
    SpellsPleaseEnter();
  }

  lemma ReadsInvalid()
    ensures Interactive(INVALID) == Asked(INVALID)
  {
    var a, b, letters := "invalid input. please ", "enter /register or /login:", "inval dput.seor/g:";
    AsciiConcat(a, b);
    SpellsInvalid();
    SpeltWithout(a + b, INVALID, letters, 'c', "successful", SUCCESSFUL);
    SpeltWithout(a + b, INVALID, letters, 'y', "already logged in", ALREADY);
    ReadsPrompt(a + b, INVALID, letters);
  }

  lemma AsksForUsername()
    ensures Includes(ASK_USERNAME, USERNAME)
  {
    assert "enter your username:" == "enter your " + "username" + ":";
    HasPart("enter your ", "username", ":");
  }

  lemma AsksForPassword()
    ensures Includes(ASK_PASSWORD, PASSWORD)
  {
    assert "enter your password:" == "enter your " + "password" + ":";
    HasPart("enter your ", "password", ":");
  }

  lemma AsksForRefresh()
    ensures Includes(ASK_TOKEN, REFRESH)
  {
    assert "enter your refresh token:" == "enter your " + "refresh" + " token:";
    HasPart("enter your ", "refresh", " token:");
  }

  lemma ReadsAskUsername()
    ensures Interactive(ASK_USERNAME) == Asked(ASK_USERNAME)
    ensures Includes(ASK_USERNAME, USERNAME) && !Includes(ASK_USERNAME, PASSWORD)
  {
    var s, letters := "enter your username:", "entr yousam:";
    assert Spelt(s, letters);
    SpeltWithout(s, ASK_USERNAME, letters, 'c', "successful", SUCCESSFUL);
    SpeltWithout(s, ASK_USERNAME, letters, 'd', "already logged in", ALREADY);
    SpeltWithout(s, ASK_USERNAME, letters, 'd', "password", PASSWORD);
    ReadsPrompt(s, ASK_USERNAME, letters);
    AsksForUsername();
  }

  lemma ReadsAskPassword()
    ensures Interactive(ASK_PASSWORD) == Asked(ASK_PASSWORD)
    ensures Includes(ASK_PASSWORD, PASSWORD)
  {
    var s, letters := "enter your password:", "entr youpaswd:";
    assert Spelt(s, letters);
    SpeltWithout(s, ASK_PASSWORD, letters, 'c', "successful", SUCCESSFUL);
    SpeltWithout(s, ASK_PASSWORD, letters, 'l', "already logged in", ALREADY);
    ReadsPrompt(s, ASK_PASSWORD, letters);
    AsksForPassword();
  }

  lemma SpellsAskToken()
    ensures Spelt("enter your refresh token:", "entr youfshk:")
  {
  }

  lemma ReadsAskToken()
    ensures Interactive(ASK_TOKEN) == Silent(ASK_TOKEN) == Asked(ASK_TOKEN)
    ensures Includes(ASK_TOKEN, REFRESH)
  {
    var s, letters := "enter your refresh token:", "entr youfshk:";
    SpellsAskToken();
    SpeltWithout(s, ASK_TOKEN, letters, 'c', "successful", SUCCESSFUL);
    SpeltWithout(s, ASK_TOKEN, letters, 'a', "already logged in", ALREADY);
    ReadsPrompt(s, ASK_TOKEN, letters);
    AsksForRefresh();
  }

  lemma ReadsLimited()
    ensures Interactive(LIMITED) == Ignored
  {
    ReadsNotice(LIMITED);
  }

  lemma SpellsServiceUnavailable()
    ensures Spelt("auth service unavailable,", "auth servicnbl,pygm")
  {
  }

  lemma SpellsTryAgain()
    ensures Spelt(" please try again later", "auth servicnbl,pygm")
  {
  }

  lemma SpellsUnavailable()
    ensures Spelt("auth service unavailable," + " please try again later", "auth servicnbl,pygm")
  {
    SpellsServiceUnavailable();
    SpellsTryAgain();
  }

  lemma ReadsUnavailable()
    ensures Interactive(UNAVAILABLE) == Ignored && Silent(UNAVAILABLE) == Refused
  {
    var a, b, letters := "auth service unavailable,", " please try again later", "auth servicnbl,pygm";
    AsciiConcat(a, b);
    SpellsUnavailable();
    SpeltWithout(a + b, UNAVAILABLE, letters, 'f', "successful", SUCCESSFUL);
    SpeltInLowerCase(a + b, UNAVAILABLE, letters);
    ReadsNotice(UNAVAILABLE);
  }

  lemma ReadsLoggedIn()
    ensures Interactive(LOGGED_IN) == Ignored
  {
    ReadsNotice(LOGGED_IN);
  }

  lemma ReadsRegistered()
    ensures Interactive(REGISTERED) == Ignored
  {
    ReadsNotice(REGISTERED);
  }

  lemma ReadsLoginOk()
    ensures Interactive(LOGIN_OK) == Silent(LOGIN_OK) == Ignored
  {
    SpeltInLowerCase("login successful", LOGIN_OK, "login sucefl");
    assert "login successful" == "login " + "successful" + "";
    HasPart("login ", "successful", "");
    ReadsNotice(LOGIN_OK);
  }

  // ------------------------------------------------------------------------ the last frame

  lemma LowerConcat(a: Text, b: Text)
    ensures Lower(a + b) == Lower(a) + Lower(b)
  {
  }

  /** The token survives the tests the client makes before looking for the prefix. */
  predicate Presentable(token: Text) {
    !Includes(FINAL + Lower(token), ALREADY) && !Includes(FINAL + Lower(token), SUCCESSFUL)
  }

  lemma FinalIsLower()
    ensures Lower(FINAL) == FINAL
  {
    SpeltInLowerCase("refresh:", FINAL, "refsh:");
  }

  /** The last frame is taken as such exactly when its token is presentable, and the client keeps the
      token in lower case. */
  lemma ReadsFinalExactly(token: Text)
    ensures Interactive(FINAL + token) == if Presentable(token) then Final(Lower(token)) else Ignored
    ensures Silent(FINAL + token) == if Includes(FINAL + Lower(token), SUCCESSFUL) then Ignored else Final(Lower(token))
  {
    LowerConcat(FINAL, token);
    FinalIsLower();
    assert (FINAL + Lower(token))[|FINAL|..] == Lower(token);
  }

  /** What hex.EncodeToString produces. */
  predicate IsHex(t: Text) {
    forall b | b in t :: 48 <= b <= 57 || 97 <= b <= 102
  }

  lemma HexIsPresentable(token: Text)
    requires IsHex(token)
    ensures Presentable(token) && Lower(token) == token
  {
    assert Lower(token) == token by {
      assert forall i | 0 <= i < |token| :: token[i] in token;
    }
    FinalLacks();
    LacksByte(FINAL + token, SUCCESSFUL, SUCCESSFUL[1]);
    LacksByte(FINAL + token, ALREADY, ALREADY[6]);
  }

  lemma FinalLacks()
    ensures SUCCESSFUL[1] == 117 && ALREADY[6] == 121
    ensures 117 !in FINAL && 121 !in FINAL
  {
    assert forall i | 0 <= i < |FINAL| :: FINAL[i] != 117 && FINAL[i] != 121;
  }
}
