/**
 * The browser client's own logic (public/sa.js): reading the saved cookies and the query
 * string at start-up, the emoji drawn beside a player's name, the question text in second and
 * third person, sending a guess, accepting a server message, and the count of players who
 * have guessed.
 */
module Client {
  import opened Options
  import opened Text
  import opened Tables
  import opened Messages
  import Sanitizer
  import Handlers

  // ---------------------------------------------------------------------------------------
  // Cookies (getCookie)
  // ---------------------------------------------------------------------------------------

  /** c without its leading spaces. */
  function TrimSpaces(c: string): (r: string)
    ensures r == [] || r[0] != ' '
  {
    if c != [] && c[0] == ' ' then TrimSpaces(c[1..]) else c
  }

  /** TrimSpaces removes a run of spaces from the front and keeps the rest of c. */
  lemma {:induction false} TrimSpacesDropsSpaces(c: string)
    ensures |TrimSpaces(c)| <= |c| && TrimSpaces(c) == c[|c| - |TrimSpaces(c)|..]
    ensures forall i :: 0 <= i < |c| - |TrimSpaces(c)| ==> c[i] == ' '
  {
    if c != [] && c[0] == ' ' {
      TrimSpacesDropsSpaces(c[1..]);
    }
  }

  /** c.indexOf(name) == 0: name is a prefix of c. */
  predicate StartsWith(c: string, name: string)
  {
    |name| <= |c| && c[..|name|] == name
  }

  /**
   * What getCookie finds among the ';'-separated pieces of the cookie string: the text after
   * name in the first piece that starts with name once its leading spaces are stripped.
   */
  function CookieValue(pieces: seq<string>, name: string): Option<string>
  {
    if pieces == [] then None
    else
      var c := TrimSpaces(pieces[0]);
      if StartsWith(c, name) then Some(c[|name|..]) else CookieValue(pieces[1..], name)
  }

  /** getCookie(cname) on the (already decoded) cookie string. */
  function Cookie(cookie: string, cname: string): Option<string>
  {
    CookieValue(SplitOn(cookie, ";"), cname + "=")
  }

  /** The value found is that of the first matching piece, and None means no piece matches. */
  lemma {:induction false} CookieValueIsFirstMatch(pieces: seq<string>, name: string)
    ensures CookieValue(pieces, name).None? <==>
      forall i :: 0 <= i < |pieces| ==> !StartsWith(TrimSpaces(pieces[i]), name)
    ensures CookieValue(pieces, name).Some? ==>
      exists i :: 0 <= i < |pieces| && TrimSpaces(pieces[i]) == name + CookieValue(pieces, name).value &&
        forall j :: 0 <= j < i ==> !StartsWith(TrimSpaces(pieces[j]), name)
  {
    if pieces != [] {
      var c := TrimSpaces(pieces[0]);
      CookieValueIsFirstMatch(pieces[1..], name);
      if StartsWith(c, name) {
        assert c == name + c[|name|..];
      } else {
        forall i | 1 <= i < |pieces| ensures pieces[i] == pieces[1..][i - 1] { }
        if CookieValue(pieces, name).Some? {
          var i :| 0 <= i < |pieces[1..]| && TrimSpaces(pieces[1..][i]) == name + CookieValue(pieces, name).value &&
            forall j :: 0 <= j < i ==> !StartsWith(TrimSpaces(pieces[1..][j]), name);
          assert TrimSpaces(pieces[i + 1]) == name + CookieValue(pieces, name).value;
        }
      }
    }
  }

  /** getCookie: the loop over the pieces, with the inner loop that strips leading spaces. */
  method GetCookie(cookie: string, cname: string) returns (r: Option<string>)
    ensures r == Cookie(cookie, cname)
  {
    var name := cname + "=";
    var cutCookie := SplitOn(cookie, ";");
    var i := 0;
    while i < |cutCookie|
      invariant 0 <= i <= |cutCookie|
      invariant CookieValue(cutCookie[i..], name) == CookieValue(cutCookie, name)
    {
      var c := cutCookie[i];
      while c != [] && c[0] == ' '
        invariant TrimSpaces(c) == TrimSpaces(cutCookie[i])
      {
        c := c[1..];
      }
      assert cutCookie[i..][1..] == cutCookie[i + 1..];
      if StartsWith(c, name) {
        return Some(c[|name|..]);
      }
      i := i + 1;
    }
    return None;
  }

  /** A cookie jar as document.cookie shows it: "name=value" entries separated by "; ". */
  function CookieString(jar: seq<(string, string)>): string
  {
    if jar == [] then []
    else if |jar| == 1 then jar[0].0 + "=" + jar[0].1
    else jar[0].0 + "=" + jar[0].1 + "; " + CookieString(jar[1..])
  }

  /** The value of the first entry of the jar with that name. */
  function Lookup(jar: seq<(string, string)>, name: string): Option<string>
  {
    if jar == [] then None
    else if jar[0].0 == name then Some(jar[0].1)
    else Lookup(jar[1..], name)
  }

  /** The cookie names the client writes (playerKey, playerSecret, roomCode) are words of letters. */
  predicate IsName(n: string)
  {
    n != [] && forall i :: 0 <= i < |n| ==> IsLetter(n[i])
  }

  lemma {:induction false} SplitWithoutSeparator(a: string)
    requires ';' !in a
    ensures SplitOn(a, ";") == [a]
    decreases |a|
  {
    if |a| >= 1 {
      assert a[0] in a;
      assert a[..1] == [a[0]] != ";";
      assert forall c :: c in a[1..] ==> c in a;
      SplitWithoutSeparator(a[1..]);
      assert [a[0]] + a[1..] == a;
    }
  }

  lemma {:induction false} SplitAtFirstSeparator(a: string, y: string)
    requires ';' !in a
    ensures SplitOn(a + ";" + y, ";") == [a] + SplitOn(y, ";")
    decreases |a|
  {
    var s := a + ";" + y;
    if a == [] {
      assert s[..1] == ";" && s[1..] == y;
    } else {
      assert a[0] in a;
      assert s[..1] == [a[0]] != ";";
      assert forall c :: c in a[1..] ==> c in a;
      SplitAtFirstSeparator(a[1..], y);
      assert s[1..] == a[1..] + ";" + y;
      assert [a[0]] + a[1..] == a;
    }
  }

  /** A leading space does not change what getCookie finds: it is stripped. */
  lemma LeadingSpaceIgnored(y: string, name: string)
    ensures CookieValue(SplitOn(" " + y, ";"), name) == CookieValue(SplitOn(y, ";"), name)
  {
    var s := " " + y;
    assert s[..1] != ";" && s[1..] == y;
    var rest := SplitOn(y, ";");
    assert SplitOn(s, ";") == [[' '] + rest[0]] + rest[1..];
    assert TrimSpaces([' '] + rest[0]) == TrimSpaces(rest[0]) by {
      assert ([' '] + rest[0])[1..] == rest[0];
    }
  }

  lemma EntryMatches(cname: string, n: string, v: string)
    requires IsName(cname) && IsName(n)
    ensures TrimSpaces(n + "=" + v) == n + "=" + v
    ensures StartsWith(n + "=" + v, cname + "=") <==> cname == n
    ensures cname == n ==> (n + "=" + v)[|cname + "="|..] == v
  {
    var e := n + "=" + v;
    assert |cname| < |n| ==> e[|cname|] == n[|cname|] && IsLetter(e[|cname|]);
    assert |n| < |cname| ==> e[|n|] == '=' && IsLetter(cname[|n|]);
    if StartsWith(e, cname + "=") && |cname| == |n| {
      assert cname == e[..|cname|] == n;
    }
  }

  /** Reading back a jar of well-formed entries finds, for each name, the first value stored under it. */
  lemma {:induction false} CookieReadsJar(jar: seq<(string, string)>, cname: string)
    requires IsName(cname)
    requires forall i :: 0 <= i < |jar| ==> IsName(jar[i].0) && ';' !in jar[i].1
    ensures Cookie(CookieString(jar), cname) == Lookup(jar, cname)
    decreases |jar|
  {
    var empty: string := [];
    if jar == [] {
      assert SplitOn(empty, ";") == [empty] && [empty][1..] == [];
      assert CookieString(jar) == empty;
      assert !StartsWith(TrimSpaces(empty), cname + "=");
      assert CookieValue([empty], cname + "=") == None;
    } else {
      var e := jar[0].0 + "=" + jar[0].1;
      assert ';' !in e by {
        assert forall k :: 0 <= k < |jar[0].0| ==> jar[0].0[k] != ';' by {
          forall k | 0 <= k < |jar[0].0| ensures jar[0].0[k] != ';' { assert IsLetter(jar[0].0[k]); }
        }
      }
      EntryMatches(cname, jar[0].0, jar[0].1);
      var name := cname + "=";
      if |jar| == 1 {
        SplitWithoutSeparator(e);
        assert CookieString(jar) == e;
        assert [e][1..] == [];
        assert CookieValue([e], name) == if cname == jar[0].0 then Some(jar[0].1) else CookieValue([], name);
      } else {
        var rest := CookieString(jar[1..]);
        var pieces := SplitOn(" " + rest, ";");
        assert CookieString(jar) == e + ";" + (" " + rest);
        SplitAtFirstSeparator(e, " " + rest);
        assert ([e] + pieces)[1..] == pieces;
        assert CookieValue([e] + pieces, name) == if cname == jar[0].0 then Some(jar[0].1) else CookieValue(pieces, name);
        LeadingSpaceIgnored(rest, name);
        CookieReadsJar(jar[1..], cname);
      }
    }
  }

  // ---------------------------------------------------------------------------------------
  // Start-up: the key, secret and room code read at page load
  // ---------------------------------------------------------------------------------------

  /** The characters parseInt skips before the number: white space and line terminators. */
  predicate IsJsSpace(c: char)
  {
    c == '\t' || c == '\n' || c == '\U{B}' || c == '\U{C}' || c == '\r' || c == ' ' ||
    c == '\U{A0}' || c == '\U{1680}' || ('\U{2000}' <= c <= '\U{200A}') || c == '\U{2028}' ||
    c == '\U{2029}' || c == '\U{202F}' || c == '\U{205F}' || c == '\U{3000}' || c == '\U{FEFF}'
  }

  predicate IsHexDigit(c: char) { IsDigit(c) || 'a' <= c <= 'f' || 'A' <= c <= 'F' }

  function DigitValue(c: char): (d: nat)
    ensures IsHexDigit(c) ==> d < 16
    ensures IsDigit(c) ==> d < 10
  {
    if IsDigit(c) then c as int - '0' as int
    else if 'a' <= c <= 'f' then c as int - 'a' as int + 10
    else if 'A' <= c <= 'F' then c as int - 'A' as int + 10
    else 0
  }

  /** The longest prefix of s whose characters all satisfy p. */
  function TakeWhile(s: string, p: char -> bool): (r: string)
    ensures |r| <= |s|
    ensures forall i :: 0 <= i < |r| ==> r[i] == s[i] && p(r[i])
    ensures |r| < |s| ==> !p(s[|r|])
  {
    if s != [] && p(s[0]) then [s[0]] + TakeWhile(s[1..], p) else []
  }

  /** s without its longest prefix of characters satisfying p. */
  function DropWhile(s: string, p: char -> bool): (r: string)
    ensures |r| <= |s|
    ensures r == [] || !p(r[0])
  {
    if s != [] && p(s[0]) then DropWhile(s[1..], p) else s
  }

  /** The value of a string of digits in the given base, most significant digit first. */
  function DigitsValue(ds: string, base: nat): nat
  {
    if ds == [] then 0 else DigitsValue(ds[..|ds| - 1], base) * base + DigitValue(ds[|ds| - 1])
  }

  /**
   * parseInt(s) with no radix: white space, an optional sign, then hexadecimal digits after
   * "0x"/"0X" or decimal digits; None stands for NaN (no digit).
   */
  function ParseInt(s: string): Option<int>
  {
    var t := DropWhile(s, IsJsSpace);
    var neg := t != [] && t[0] == '-';
    var u := if t != [] && (t[0] == '-' || t[0] == '+') then t[1..] else t;
    var hex := |u| >= 2 && u[0] == '0' && (u[1] == 'x' || u[1] == 'X');
    var ds := if hex then TakeWhile(u[2..], IsHexDigit) else TakeWhile(u, IsDigit);
    if ds == [] then None
    else
      var n: int := DigitsValue(ds, if hex then 16 else 10);
      Some(if neg then -n else n)
  }

  /** The decimal text of n, as a template literal writes a number into the cookie. */
  function Decimal(n: nat): (r: string)
    ensures r != [] && forall i :: 0 <= i < |r| ==> IsDigit(r[i])
    ensures n > 0 ==> r[0] != '0'
  {
    var d := ['0' + (n % 10) as char];
    if n < 10 then d else Decimal(n / 10) + d
  }

  lemma {:induction false} DecimalValue(n: nat)
    ensures DigitsValue(Decimal(n), 10) == n
  {
    var d := ['0' + (n % 10) as char];
    if n >= 10 {
      DecimalValue(n / 10);
      var r := Decimal(n / 10) + d;
      assert r[..|r| - 1] == Decimal(n / 10);
    }
  }

  /** parseInt reads back the key the client wrote into its cookie. */
  lemma ParseDecimal(n: nat)
    ensures ParseInt(Decimal(n)) == Some(n)
  {
    var s := Decimal(n);
    assert DropWhile(s, IsJsSpace) == s by {
      assert !IsJsSpace(s[0]);
    }
    assert TakeWhile(s, IsDigit) == s;
    DecimalValue(n);
  }

  /** What the page knows at load: the player key, the secret and the room code. */
  datatype Boot = Boot(key: Option<int>, secret: Option<string>, room: Option<string>)

  predicate IsRoomCode(s: string) { |s| == 5 && forall i :: 0 <= i < 5 ==> IsLetter(s[i]) }

  predicate IsSecret(s: string) { forall i :: 0 <= i < |s| ==> IsAlnum(s[i]) }

  /**
   * The page load: the key is parseInt of the playerKey cookie, null when that is NaN or 0;
   * the room code comes from a non-empty room query parameter, else from the roomCode cookie,
   * and is kept only if it is five ASCII letters; the secret is kept only if it is alphanumeric.
   * (The regular expression tests a null secret as the text "null", which passes.)
   */
  function Startup(cookie: string, query: Option<string>): (b: Boot)
    ensures b.key.Some? ==> b.key.value != 0
    ensures b.room.Some? ==> IsRoomCode(b.room.value)
    ensures b.secret.Some? ==> IsSecret(b.secret.value)
  {
    var key := match Cookie(cookie, "playerKey")
      case None => None
      case Some(v) => if ParseInt(v).Some? && ParseInt(v).value != 0 then ParseInt(v) else None;
    var secret := Cookie(cookie, "playerSecret");
    var room := if query.Some? && query.value != [] then query else Cookie(cookie, "roomCode");
    Boot(key,
      if secret.Some? && !IsSecret(secret.value) then None else secret,
      if room.Some? && IsRoomCode(room.value) then room else None)
  }

  /**
   * With no room parameter, a page that wrote its key, secret and room code into the cookie
   * jar reads the same three back at the next load.
   */
  lemma StartupRestoresSaved(jar: seq<(string, string)>, key: nat, secret: string, code: string)
    requires forall i :: 0 <= i < |jar| ==> IsName(jar[i].0) && ';' !in jar[i].1
    requires key != 0 && IsSecret(secret) && IsRoomCode(code)
    requires Lookup(jar, "playerKey") == Some(Decimal(key))
    requires Lookup(jar, "playerSecret") == Some(secret)
    requires Lookup(jar, "roomCode") == Some(code)
    ensures Startup(CookieString(jar), None) == Boot(Some(key), Some(secret), Some(code))
  {
    CookieReadsJar(jar, "playerKey");
    CookieReadsJar(jar, "playerSecret");
    CookieReadsJar(jar, "roomCode");
    ParseDecimal(key);
  }

  /** A room parameter in the query string wins over the cookie, when it is a valid code. */
  lemma StartupPrefersQuery(cookie: string, code: string)
    requires IsRoomCode(code)
    ensures Startup(cookie, Some(code)).room == Some(code)
  {
  }

  // ---------------------------------------------------------------------------------------
  // EmojiHash
  // ---------------------------------------------------------------------------------------

  const Emojis: seq<string> := [
    "🙃", "🤒", "🤕", "🤧", "🥵", "🥶", "🥴", "😵", "🤯", "🤠", "🥳", "🥸", "😎", "🧐", "🥺", "🤬", "😈", "💀", "👺",
    "👻", "👾", "🤖", "🦾", "👵", "🙆", "🧑‍⚕️", "🧑‍🏫", "🧑‍🌾", "🧑‍💻", "🧑‍✈️", "🧑‍🚒", "👮", "🕵️", "💂", "🥷",
    "🤴", "👸", "👲", "🤶", "🦸", "🦹", "🧙", "🧚", "🧛", "🧜‍♀️", "🧝", "🧞‍♀️", "🧟", "🧑‍🦼", "🕴️", "🧘", "🎃",
    "🎩", "😶‍🌫️", "🙈", "🙉", "🙊", "💥", "🦍", "🐩", "🦊", "🐎", "🦄", "🦌", "🐗", "🐫", "🐘", "🦣", "🐻‍❄️", "🐨",
    "🐼", "🦥", "🦦", "🐓", "🕊️", "🦅", "🐳", "🐡", "🦋", "🥀", "🌵", "🍄", "🦞", "🌈", "⛄", "🎍", "🍉", "🍌", "🍍",
    "🍑", "🍒", "🥝", "🌶️", "🍖", "🍕", "🌮", "🍿", "🧈", "🍱", "🍩", "🥧", "🍷", "🤺", "🏄", "🏆", "🥋", "🎯", "🗻",
    "🏝️", "🏩", "🏯", "🗼", "⛩️", "🏍️", "🛸", "🪐", "🗿", "💴", "💔", "💮", "♨", "🀄", "⚠️", "☢️", "🔱", "🉐",
    "🔞", "🧸", "🧾", "🚽"  ]

  /** The UTF-16 code units of s, the units charCodeAt reads: two surrogates above U+FFFF. */
  function Utf16(s: string): (units: seq<int>)
    ensures forall i :: 0 <= i < |units| ==> 0 <= units[i] < 0x1_0000
  {
    if s == [] then [] else Units(s[0]) + Utf16(s[1..])
  }

  /** One character as UTF-16: itself below U+10000, else a high and a low surrogate. */
  function Units(ch: char): (units: seq<int>)
    ensures forall i :: 0 <= i < |units| ==> 0 <= units[i] < 0x1_0000
  {
    var c := ch as int;
    if c < 0x1_0000 then [c] else [0xD800 + (c - 0x1_0000) / 0x400, 0xDC00 + (c - 0x1_0000) % 0x400]
  }

  lemma {:induction false} Utf16Append(s: string, t: string)
    ensures Utf16(s + t) == Utf16(s) + Utf16(t)
    decreases |s|
  {
    if s == [] {
      assert s + t == t;
    } else {
      assert (s + t)[0] == s[0] && (s + t)[1..] == s[1..] + t;
      Utf16Append(s[1..], t);
    }
  }

  /** The sum of the units, added first to last as the loop does. */
  function UnitSum(units: seq<int>): int
  {
    if units == [] then 0 else UnitSum(units[..|units| - 1]) + units[|units| - 1]
  }

  lemma {:induction false} UnitSumAppend(a: seq<int>, b: seq<int>)
    ensures UnitSum(a + b) == UnitSum(a) + UnitSum(b)
    decreases |b|
  {
    if b == [] {
      assert a + b == a;
    } else {
      assert (a + b)[..|a + b| - 1] == a + b[..|b| - 1];
      assert (a + b)[|a + b| - 1] == b[|b| - 1];
      UnitSumAppend(a, b[..|b| - 1]);
    }
  }

  /** The emoji of a string: the one at the sum of its code units, modulo the number of emojis. */
  function EmojiOf(s: string): (e: string)
    ensures e in Emojis
  {
    Emojis[UnitSum(Utf16(s)) % |Emojis|]
  }

  /** EmojiHash: the for loop summing the code units. */
  method EmojiHash(inputString: string) returns (e: string)
    ensures e == EmojiOf(inputString)
  {
    var units := Utf16(inputString);
    var nameAsciiSum := 0;
    for stringIndex := 0 to |units|
      invariant nameAsciiSum == UnitSum(units[..stringIndex])
    {
      assert units[..stringIndex + 1][..stringIndex] == units[..stringIndex];
      nameAsciiSum := nameAsciiSum + units[stringIndex];
    }
    assert units[..|units|] == units;
    e := Emojis[nameAsciiSum % |Emojis|];
  }

  /** The emoji depends only on which characters occur, not on the order of the two halves. */
  lemma EmojiOfSwapped(s: string, t: string)
    ensures EmojiOf(s + t) == EmojiOf(t + s)
  {
    SumSwapped(s, t);
  }

  lemma SumSwapped(s: string, t: string)
    ensures UnitSum(Utf16(s + t)) == UnitSum(Utf16(t + s))
  {
    Utf16Append(s, t);
    Utf16Append(t, s);
    UnitSumAppend(Utf16(s), Utf16(t));
    UnitSumAppend(Utf16(t), Utf16(s));
  }

  // ---------------------------------------------------------------------------------------
  // Question text in second and third person (StringTo2ndPerson, StringTo3rdPerson)
  // ---------------------------------------------------------------------------------------

  /** The placeholders of the question texts, in the order both rewritings replace them. */
  const Placeholders: seq<string> :=
    ["XyoutheyX", "XYoutheyX", "XyouthemX", "XYouthemX", "XyourtheirX", "XYourtheirX"]

  /** What each placeholder becomes when the text is addressed to the reader. */
  const SecondWords: seq<string> := ["you", "You", "you", "You", "your", "Your"]

  /** What each placeholder becomes when the text is about the current player. */
  const ThirdWords: seq<string> := ["they", "They", "them", "Them", "their", "Their"]

  /** StringTo2ndPerson: each placeholder replaced everywhere, one after the other. */
  function SecondPerson(question: string): string
  {
    var q := ReplaceAll(question, "XyoutheyX", "you");
    var q := ReplaceAll(q, "XYoutheyX", "You");
    var q := ReplaceAll(q, "XyouthemX", "you");
    var q := ReplaceAll(q, "XYouthemX", "You");
    var q := ReplaceAll(q, "XyourtheirX", "your");
    ReplaceAll(q, "XYourtheirX", "Your")
  }

  /** StringTo3rdPerson: the placeholders replaced the same way, then the "(...)" spans deleted. */
  function ThirdPerson(question: string): string
  {
    var q := ReplaceAll(question, "XyoutheyX", "they");
    var q := ReplaceAll(q, "XYoutheyX", "They");
    var q := ReplaceAll(q, "XyouthemX", "them");
    var q := ReplaceAll(q, "XYouthemX", "Them");
    var q := ReplaceAll(q, "XyourtheirX", "their");
    var q := ReplaceAll(q, "XYourtheirX", "Their");
    StripParens(q)
  }

  /** The characters at which '.' in a regular expression stops. */
  predicate IsLineBreak(c: char) { c == '\n' || c == '\r' || c == '\U{2028}' || c == '\U{2029}' }

  /** The length of the first line of s, up to its first line terminator. */
  function LineLength(s: string): (n: nat)
    ensures n <= |s|
  {
    if s == [] || IsLineBreak(s[0]) then 0 else 1 + LineLength(s[1..])
  }

  /** The first line of s, without its terminator. */
  function FirstLine(s: string): string
  {
    s[..LineLength(s)]
  }

  /** The position just after the last ')' in s[lo..hi], or 0 when there is none. */
  function LastClose(s: string, lo: nat, hi: nat): (e: nat)
    requires lo <= hi <= |s|
    ensures e == 0 || (lo < e <= hi && s[e - 1] == ')')
    ensures ')' !in s[if e == 0 then lo else e..hi]
    decreases hi
  {
    if hi == lo then 0
    else if s[hi - 1] == ')' then hi
    else
      var e := LastClose(s, lo, hi - 1);
      assert s[if e == 0 then lo else e..hi] == s[if e == 0 then lo else e..hi - 1] + [s[hi - 1]];
      e
  }

  /**
   * The length of the match of /\(.*\)/ at the start of s, 0 when it does not match there:
   * a '(' and then, greedily, everything up to the last ')' of the same line.
   */
  function SpanAt(s: string): (n: nat)
    ensures n <= |s|
    ensures n > 0 ==> 2 <= n <= 1 + LineLength(s[1..]) && s[0] == '(' && s[n - 1] == ')'
    ensures n > 0 ==> ')' !in s[n..1 + LineLength(s[1..])]
    ensures s != [] && s[0] == '(' && n == 0 ==> ')' !in FirstLine(s[1..])
  {
    if s == [] || s[0] != '(' then 0
    else
      var e := LastClose(s, 1, 1 + LineLength(s[1..]));
      assert FirstLine(s[1..]) == s[1..1 + LineLength(s[1..])];
      e
  }

  /** s.replace(/\(.*\)/g, ""): the scan deletes each match and resumes after it. */
  function StripParens(s: string): string
    decreases |s|
  {
    if s == [] then []
    else
      var n := SpanAt(s);
      if n > 0 then StripParens(s[n..]) else [s[0]] + StripParens(s[1..])
  }

  /** No '(' is followed by a ')' on its line: /\(.*\)/ matches nowhere in r. */
  predicate NoSpan(r: string)
  {
    forall i :: 0 <= i < |r| && r[i] == '(' ==> ')' !in FirstLine(r[i + 1..])
  }

  /** A match at the start of t ends with a ')' of t's first line. */
  lemma SpanEndsOnFirstLine(t: string)
    ensures SpanAt(t) > 0 ==> ')' in FirstLine(t)
  {
    var n := SpanAt(t);
    if n > 0 {
      assert LineLength(t) == 1 + LineLength(t[1..]);
      assert t[n - 1] == FirstLine(t)[n - 1];
    }
  }

  /** A first line with no ')' keeps none once the spans are deleted. */
  lemma {:induction false} FirstLineStaysOpen(t: string)
    requires ')' !in FirstLine(t)
    ensures ')' !in FirstLine(StripParens(t))
    decreases |t|
  {
    if t != [] {
      SpanEndsOnFirstLine(t);
      var r' := StripParens(t[1..]);
      var r := [t[0]] + r';
      assert r[1..] == r';
      if !IsLineBreak(t[0]) {
        assert FirstLine(t) == [t[0]] + FirstLine(t[1..]);
        FirstLineStaysOpen(t[1..]);
        assert FirstLine(r) == [t[0]] + FirstLine(r');
      }
    }
  }

  /** StringTo3rdPerson leaves no "(...)" span on any line. */
  lemma {:induction false} StripParensLeavesNoSpan(s: string)
    ensures NoSpan(StripParens(s))
    decreases |s|
  {
    if s != [] {
      var n := SpanAt(s);
      if n > 0 {
        StripParensLeavesNoSpan(s[n..]);
      } else {
        StripParensLeavesNoSpan(s[1..]);
        if s[0] == '(' {
          FirstLineStaysOpen(s[1..]);
        }
        NoSpanCons(s[0], StripParens(s[1..]));
      }
    }
  }

  lemma NoSpanCons(c: char, r': string)
    requires NoSpan(r')
    requires c == '(' ==> ')' !in FirstLine(r')
    ensures NoSpan([c] + r')
  {
    var r := [c] + r';
    forall i | 0 <= i < |r| && r[i] == '(' ensures ')' !in FirstLine(r[i + 1..]) {
      assert r[i + 1..] == r'[i..];
      if i > 0 {
        assert r[i] == r'[i - 1];
      }
    }
  }

  /** Text without '(' is left as it is. */
  lemma {:induction false} StripParensWithoutOpen(s: string)
    requires '(' !in s
    ensures StripParens(s) == s
    decreases |s|
  {
    if s != [] {
      assert s[0] in s;
      assert forall c :: c in s[1..] ==> c in s;
      StripParensWithoutOpen(s[1..]);
      assert [s[0]] + s[1..] == s;
    }
  }

  /** A piece of question text: the placeholder numbered slot, then literal text. */
  datatype Piece = Piece(slot: nat, text: string)

  predicate Slotted(pieces: seq<Piece>, forms: seq<string>)
  {
    forall i :: 0 <= i < |pieces| ==> pieces[i].slot < |forms|
  }

  /** The pieces written out, each placeholder as its entry of forms. */
  function FillPieces(pieces: seq<Piece>, forms: seq<string>): string
    requires Slotted(pieces, forms)
  {
    if pieces == [] then [] else forms[pieces[0].slot] + pieces[0].text + FillPieces(pieces[1..], forms)
  }

  /**
   * Question text as its authors write it: the literal text holds no 'X' and no '(', and a
   * placeholder is followed by a character that is not a letter, or ends the text.
   */
  predicate PlainPieces(pieces: seq<Piece>)
  {
    forall i :: 0 <= i < |pieces| ==>
      pieces[i].slot < 6 && 'X' !in pieces[i].text && '(' !in pieces[i].text &&
      (if pieces[i].text == [] then i == |pieces| - 1 else !IsLetter(pieces[i].text[0]))
  }

  /** The forms after the first k replacements: words for the placeholders already replaced. */
  function Stage(k: nat, words: seq<string>): (forms: seq<string>)
    requires k <= 6 && |words| == 6
    ensures |forms| == 6
  {
    words[..k] + Placeholders[k..]
  }

  /** A position where two different placeholders differ, inside both. */
  function DiffAt(j: nat, k: nat): nat
  {
    if j % 2 != k % 2 then 1 else if j / 2 == 2 || k / 2 == 2 then 4 else 7
  }

  /** A placeholder is an X, its inner text, and an X. */
  lemma FramedBy(p: string, inner: string)
    requires p == "X" + inner + "X"
    ensures p[1..|p| - 1] == inner
  {
  }

  /** Each placeholder is 'X', then letters other than 'X', then 'X'. */
  lemma PlaceholderShape(j: nat)
    requires j < 6
    ensures |Placeholders[j]| >= 9 && Placeholders[j][0] == 'X' && Placeholders[j][|Placeholders[j]| - 1] == 'X'
    ensures IsLetter(Placeholders[j][1]) && 'X' !in Placeholders[j][1..|Placeholders[j]| - 1]
  {
    var p := Placeholders[j];
    if j == 0 {
      FramedBy(p, "youthey");
    } else if j == 1 {
      FramedBy(p, "Youthey");
    } else if j == 2 {
      FramedBy(p, "youthem");
    } else if j == 3 {
      FramedBy(p, "Youthem");
    } else if j == 4 {
      FramedBy(p, "yourtheir");
    } else {
      FramedBy(p, "Yourtheir");
    }
  }

  /** Two different placeholders differ at DiffAt, a position inside both. */
  lemma PlaceholdersDiffer(j: nat, k: nat)
    requires j < 6 && k < 6 && j != k
    ensures DiffAt(j, k) < 8 && Placeholders[j][DiffAt(j, k)] != Placeholders[k][DiffAt(j, k)]
  {
  }

  /** Placeholder k occurs nowhere inside placeholder j != k followed by its literal text. */
  lemma OtherSlotPasses(j: nat, k: nat, text: string, more: string)
    requires j < 6 && k < 6 && j != k
    requires 'X' !in text && (text == [] ==> more == []) && (text != [] ==> !IsLetter(text[0]))
    ensures forall i :: 0 <= i < |Placeholders[j] + text| ==>
      !OccursAt(Placeholders[j] + text + more, i, Placeholders[k])
  {
    PlaceholderShape(j);
    PlaceholderShape(k);
    PlaceholdersDiffer(j, k);
    var f, p := Placeholders[j], Placeholders[k];
    var s := f + text + more;
    forall i | 0 <= i < |f + text| ensures !OccursAt(s, i, p) {
      if i == 0 {
        assert s[DiffAt(j, k)] == f[DiffAt(j, k)] != p[DiffAt(j, k)];
      } else if i < |f| - 1 {
        assert s[i] == f[i] && f[i] in f[1..|f| - 1];
      } else if i == |f| - 1 {
        if text != [] {
          assert s[i + 1] == text[0] && !IsLetter(s[i + 1]);
        } else {
          assert |s| == |f|;
        }
      } else {
        assert s[i] == text[i - |f|] && text[i - |f|] in text;
      }
    }
  }

  /** Where a's characters are not p's first one, p occurs at no position of a + y inside a. */
  lemma NoMatchInside(a: string, y: string, p: string)
    requires p != [] && p[0] !in a
    ensures forall i :: 0 <= i < |a| ==> !OccursAt(a + y, i, p)
  {
    forall i | 0 <= i < |a| ensures !OccursAt(a + y, i, p) {
      assert (a + y)[i] == a[i] && a[i] in a;
    }
  }

  /** Replacing placeholder k in pieces written with the first k forms writes the first k + 1. */
  lemma {:induction false} ReplaceStage(pieces: seq<Piece>, k: nat, words: seq<string>)
    requires k < 6 && |words| == 6
    requires forall j :: 0 <= j < 6 ==> 'X' !in words[j]
    requires PlainPieces(pieces)
    ensures Slotted(pieces, Stage(k, words)) && Slotted(pieces, Stage(k + 1, words))
    ensures ReplaceAll(FillPieces(pieces, Stage(k, words)), Placeholders[k], words[k])
      == FillPieces(pieces, Stage(k + 1, words))
    decreases |pieces|
  {
    if pieces != [] {
      var f, g := Stage(k, words), Stage(k + 1, words);
      var pc, p, w := pieces[0], Placeholders[k], words[k];
      assert PlainPieces(pieces[1..]) by {
        forall i | 0 <= i < |pieces[1..]| ensures pieces[1..][i] == pieces[i + 1] { }
      }
      ReplaceStage(pieces[1..], k, words);
      var more := FillPieces(pieces[1..], f);
      assert FillPieces(pieces, f) == f[pc.slot] + pc.text + more;
      assert FillPieces(pieces, g) == g[pc.slot] + pc.text + FillPieces(pieces[1..], g);
      assert pc.text == [] ==> more == [];
      PieceStep(pc.slot, pc.text, more, k, words);
    }
  }

  /** One piece of the text through the replacement of placeholder k. */
  lemma PieceStep(slot: nat, text: string, more: string, k: nat, words: seq<string>)
    requires k < 6 && |words| == 6 && slot < 6
    requires forall j :: 0 <= j < 6 ==> 'X' !in words[j]
    requires 'X' !in text && (text == [] ==> more == []) && (text != [] ==> !IsLetter(text[0]))
    ensures ReplaceAll(Stage(k, words)[slot] + text + more, Placeholders[k], words[k])
      == Stage(k + 1, words)[slot] + text + ReplaceAll(more, Placeholders[k], words[k])
  {
    if slot == k {
      PieceHit(text, more, k, words[k]);
    } else if slot < k {
      assert Stage(k, words)[slot] == words[slot] == Stage(k + 1, words)[slot];
      PiecePassed(words[slot], text, more, k, words[k]);
    } else {
      assert Stage(k, words)[slot] == Placeholders[slot] == Stage(k + 1, words)[slot];
      PieceAhead(slot, text, more, k, words[k]);
    }
  }

  /** The piece's own placeholder is the one being replaced. */
  lemma PieceHit(text: string, more: string, k: nat, w: string)
    requires k < 6
    requires 'X' !in text
    ensures ReplaceAll(Placeholders[k] + text + more, Placeholders[k], w)
      == w + text + ReplaceAll(more, Placeholders[k], w)
  {
    var p := Placeholders[k];
    PlaceholderShape(k);
    var s := p + text + more;
    assert s[..|p|] == p && s[|p|..] == text + more;
    assert ReplaceAll(s, p, w) == w + ReplaceAll(text + more, p, w);
    NoMatchInside(text, more, p);
    ReplaceAllSkips(text, more, p, w);
    assert w + (text + ReplaceAll(more, p, w)) == w + text + ReplaceAll(more, p, w);
  }

  /** The piece's placeholder was already replaced by a word without an X. */
  lemma PiecePassed(word: string, text: string, more: string, k: nat, w: string)
    requires k < 6
    requires 'X' !in word && 'X' !in text
    ensures ReplaceAll(word + text + more, Placeholders[k], w)
      == word + text + ReplaceAll(more, Placeholders[k], w)
  {
    var p := Placeholders[k];
    PlaceholderShape(k);
    NoMatchInside(text, more, p);
    ReplaceAllSkips(text, more, p, w);
    NoMatchInside(word, text + more, p);
    ReplaceAllSkips(word, text + more, p, w);
    assert word + text + more == word + (text + more);
  }

  /** The piece's placeholder comes later and is not touched by placeholder k. */
  lemma PieceAhead(slot: nat, text: string, more: string, k: nat, w: string)
    requires k < 6 && slot < 6 && k != slot
    requires 'X' !in text && (text == [] ==> more == []) && (text != [] ==> !IsLetter(text[0]))
    ensures ReplaceAll(Placeholders[slot] + text + more, Placeholders[k], w)
      == Placeholders[slot] + text + ReplaceAll(more, Placeholders[k], w)
  {
    var p := Placeholders[k];
    PlaceholderShape(k);
    NoMatchInside(text, more, p);
    ReplaceAllSkips(text, more, p, w);
    OtherSlotPasses(slot, k, text, more);
    ReplaceAllSkips(Placeholders[slot] + text, more, p, w);
  }

  /** Question text: literal text, then the pieces, each placeholder written as forms[slot]. */
  function Fill(head: string, pieces: seq<Piece>, forms: seq<string>): string
    requires Slotted(pieces, forms)
  {
    head + FillPieces(pieces, forms)
  }

  lemma FillStep(head: string, pieces: seq<Piece>, k: nat, words: seq<string>)
    requires k < 6 && |words| == 6
    requires forall j :: 0 <= j < 6 ==> 'X' !in words[j]
    requires 'X' !in head && PlainPieces(pieces)
    ensures Slotted(pieces, Stage(k, words)) && Slotted(pieces, Stage(k + 1, words))
    ensures ReplaceAll(Fill(head, pieces, Stage(k, words)), Placeholders[k], words[k])
      == Fill(head, pieces, Stage(k + 1, words))
  {
    ReplaceStage(pieces, k, words);
    PlaceholderShape(k);
    NoMatchInside(head, FillPieces(pieces, Stage(k, words)), Placeholders[k]);
    ReplaceAllSkips(head, FillPieces(pieces, Stage(k, words)), Placeholders[k], words[k]);
  }

  /** c occurs in no part of the text, so not in the text written out. */
  lemma {:induction false} FillLacks(pieces: seq<Piece>, forms: seq<string>, c: char)
    requires Slotted(pieces, forms)
    requires forall i :: 0 <= i < |pieces| ==> c !in pieces[i].text
    requires forall j :: 0 <= j < |forms| ==> c !in forms[j]
    ensures c !in FillPieces(pieces, forms)
    decreases |pieces|
  {
    if pieces != [] {
      assert forall i :: 0 <= i < |pieces[1..]| ==> pieces[1..][i] == pieces[i + 1];
      FillLacks(pieces[1..], forms, c);
    }
  }

  /** The six replacements in order, with the given word for each placeholder. */
  function ReplaceEach(q: string, words: seq<string>): string
    requires |words| == 6
  {
    var q := ReplaceAll(q, Placeholders[0], words[0]);
    var q := ReplaceAll(q, Placeholders[1], words[1]);
    var q := ReplaceAll(q, Placeholders[2], words[2]);
    var q := ReplaceAll(q, Placeholders[3], words[3]);
    var q := ReplaceAll(q, Placeholders[4], words[4]);
    ReplaceAll(q, Placeholders[5], words[5])
  }

  lemma {:induction false} ReplaceEachFills(head: string, pieces: seq<Piece>, words: seq<string>)
    requires |words| == 6 && forall j :: 0 <= j < 6 ==> 'X' !in words[j]
    requires 'X' !in head && PlainPieces(pieces)
    ensures Slotted(pieces, Placeholders) && Slotted(pieces, words)
    ensures ReplaceEach(Fill(head, pieces, Placeholders), words) == Fill(head, pieces, words)
  {
    assert Stage(0, words) == Placeholders;
    assert Stage(6, words) == words;
    FillStep(head, pieces, 0, words);
    FillStep(head, pieces, 1, words);
    FillStep(head, pieces, 2, words);
    FillStep(head, pieces, 3, words);
    FillStep(head, pieces, 4, words);
    FillStep(head, pieces, 5, words);
  }

  /**
   * StringTo2ndPerson on question text as its authors write it: every placeholder becomes
   * its second-person word and nothing else changes.
   */
  lemma SecondPersonFills(head: string, pieces: seq<Piece>)
    requires 'X' !in head && PlainPieces(pieces)
    ensures Slotted(pieces, Placeholders) && Slotted(pieces, SecondWords)
    ensures SecondPerson(Fill(head, pieces, Placeholders)) == Fill(head, pieces, SecondWords)
  {
    assert forall j :: 0 <= j < 6 ==> 'X' !in SecondWords[j];
    ReplaceEachFills(head, pieces, SecondWords);
  }

  /**
   * StringTo3rdPerson on question text as its authors write it: every placeholder becomes
   * its third-person word, and with no "(" in the text nothing else changes.
   */
  lemma ThirdPersonFills(head: string, pieces: seq<Piece>)
    requires 'X' !in head && '(' !in head && PlainPieces(pieces)
    ensures Slotted(pieces, Placeholders) && Slotted(pieces, ThirdWords)
    ensures ThirdPerson(Fill(head, pieces, Placeholders)) == Fill(head, pieces, ThirdWords)
  {
    assert forall j :: 0 <= j < 6 ==> 'X' !in ThirdWords[j] && '(' !in ThirdWords[j];
    ReplaceEachFills(head, pieces, ThirdWords);
    FillLacks(pieces, ThirdWords, '(');
    StripParensWithoutOpen(Fill(head, pieces, ThirdWords));
  }

  // ---------------------------------------------------------------------------------------
  // The page's state: sending a guess and reading the server's messages
  // ---------------------------------------------------------------------------------------

  /** The page's roomData: the start-up room code until a message brings the server's room. */
  datatype LocalRoom = Unloaded(code: Option<string>) | Loaded(data: RoomData)

  function ShownState(room: LocalRoom): Option<int>
  {
    if room.Loaded? then Some(room.data.gameState) else None
  }

  function RoomCodeOf(room: LocalRoom): Option<string>
  {
    if room.Loaded? then Some(room.data.code) else room.code
  }

  function CurrentPlayerOf(room: LocalRoom): Option<int>
  {
    if room.Loaded? then Some(room.data.currentPlayer) else None
  }

  /** myPlayerData: the page's own player, each field null until it is known. */
  datatype Me = Me(
    key: Option<int>, secret: Option<string>, index: Option<int>, name: Option<string>,
    choice: Option<int>, score: int, active: Option<bool>)

  /** The guessData object the page emits with "send guess". */
  datatype GuessData = GuessData(key: Option<int>, secret: Option<string>, roomCode: Option<string>,
    questionIndex: Option<int>)

  /** A key as a JavaScript condition reads it: null and 0 are false. */
  predicate KnownKey(k: Option<int>) { k.Some? && k.value != 0 }

  /** Tapping card q: the choice is cleared when it was q, and becomes q otherwise. */
  function Toggle(choice: Option<int>, q: int): Option<int>
  {
    if choice == Some(q) then None else Some(q)
  }

  /** Tapping the same card twice restores an empty choice or that card, and clears any other. */
  lemma ToggleTwice(choice: Option<int>, q: int)
    ensures Toggle(choice, q) != choice
    ensures Toggle(Toggle(choice, q), q) == if choice == Some(q) then choice else None
  {
  }

  /** The guess as the server receives it: JSON carries null as null and integers as numbers. */
  function GuessWire(g: GuessData): Sanitizer.Input
  {
    map[
      "playerKey" := if g.key.Some? then Sanitizer.Num(g.key.value as real) else Sanitizer.Null,
      "playerSecret" := if g.secret.Some? then Sanitizer.Str(g.secret.value) else Sanitizer.Null,
      "roomCode" := if g.roomCode.Some? then Sanitizer.Str(g.roomCode.value) else Sanitizer.Null,
      "questionIndex" := if g.questionIndex.Some? then Sanitizer.Num(g.questionIndex.value as real) else Sanitizer.Null]
  }

  /**
   * The choice the server stores for a guess it accepts is what parseInt makes of the index
   * the page sent, or NULL when the tap took the guess back; for any index JavaScript prints
   * without an exponent (a card's index always is) that is the index itself.
   */
  lemma SentChoiceIsStored(g: GuessData, players: PlayerTable, verifyFails: bool, data: Sanitizer.Cleaned)
    requires Sanitizer.Sanitize(GuessWire(g), ["playerKey", "playerSecret"], players, verifyFails) == Ok(data)
    ensures "questionIndex" in data
    ensures Handlers.ChoiceOf(data["questionIndex"]) ==
      if g.questionIndex.Some? then Some(Sanitizer.ParseNumber(g.questionIndex.value as real)) else None
    ensures g.questionIndex.Some? && -1_000_000_000_000_000_000_000 < g.questionIndex.value < 1_000_000_000_000_000_000_000 ==>
      Handlers.ChoiceOf(data["questionIndex"]) == g.questionIndex
  {
    var input := GuessWire(g);
    Sanitizer.AllowListShape();
    Sanitizer.CopyContents(input, Sanitizer.Allowed, map[]);
    assert Sanitizer.Allowed[4] == ("questionIndex", "number");
    var v := Sanitizer.Get(input, "questionIndex");
    assert v == if g.questionIndex.Some? then Sanitizer.Num(g.questionIndex.value as real) else Sanitizer.Null;
    assert Sanitizer.Outcome(input, Sanitizer.Allowed[4]).Kept?;
    if g.questionIndex.Some? && -1_000_000_000_000_000_000_000 < g.questionIndex.value < 1_000_000_000_000_000_000_000 {
      Sanitizer.ParseNumberOfInteger(g.questionIndex.value);
    }
  }

  /** The position of the first row with this key (playerList.find), |list| when there is none. */
  function FindKey(list: seq<PlayerData>, key: Option<int>): (i: nat)
    ensures i <= |list|
    ensures i < |list| ==> Some(list[i].key) == key
    ensures forall j :: 0 <= j < i ==> Some(list[j].key) != key
  {
    if list == [] then 0
    else if Some(list[0].key) == key then 0
    else 1 + FindKey(list[1..], key)
  }

  /** Object.entries(row) copied into myPlayerData; a row without a secret leaves the secret alone. */
  function Merge(me: Me, row: PlayerData): Me
  {
    Me(Some(row.key), if row.secret.Some? then row.secret else me.secret, Some(row.index),
      Some(row.name), row.choice, row.score, Some(row.active))
  }

  /** The page's own data agrees with its row in the player list. */
  predicate Synced(me: Me, list: seq<PlayerData>)
  {
    var i := FindKey(list, me.key);
    i < |list| && me.index == Some(list[i].index) && me.name == Some(list[i].name) &&
    me.choice == list[i].choice && me.score == list[i].score && me.active == Some(list[i].active)
  }

  /** ReadMsg's first three checks: a successful message, a key known somewhere, and one for us. */
  predicate Admitted(msg: Reply, personal: bool, key: Option<int>)
  {
    msg.success && (KnownKey(msg.playerKey) || KnownKey(key)) && (KnownKey(key) || personal)
  }

  /** A personal message's non-empty secret and nonzero key replace the page's own. */
  function Adopt(me: Me, msg: Reply, personal: bool): Me
  {
    if !personal then me
    else
      var me := if msg.playerSecret.Some? && msg.playerSecret.value != "" then me.(secret := msg.playerSecret) else me;
      if KnownKey(msg.playerKey) then me.(key := msg.playerKey) else me
  }

  /** The browser page: its copy of the room and player list, and its own player. */
  class Page {
    var room: LocalRoom
    var playerList: seq<PlayerData>
    var me: Me

    /** The globals as the page sets them at load. */
    constructor(boot: Boot)
      ensures room == Unloaded(boot.room) && playerList == []
      ensures me == Me(boot.key, boot.secret, None, None, None, 0, None)
    {
      room := Unloaded(boot.room);
      playerList := [];
      me := Me(boot.key, boot.secret, None, None, None, 0, None);
    }

    /**
     * SendGuess: nothing once the answer is shown (game state 2); otherwise tapping the
     * chosen card clears the choice, any other card becomes the choice, and the guess sent
     * carries the new choice.
     */
    method SendGuess(questionIndex: int) returns (sent: Option<GuessData>)
      modifies this
      ensures room == old(room) && playerList == old(playerList)
      ensures ShownState(room) == Some(2) ==> sent == None && me == old(me)
      ensures ShownState(room) != Some(2) ==>
        me == old(me).(choice := Toggle(old(me.choice), questionIndex)) &&
        sent == Some(GuessData(me.key, me.secret, RoomCodeOf(room), me.choice))
    {
      if ShownState(room) == Some(2) {
        return None;
      }
      if me.choice == Some(questionIndex) {
        me := me.(choice := None);
      } else {
        me := me.(choice := Some(questionIndex));
      }
      sent := Some(GuessData(me.key, me.secret, RoomCodeOf(room), me.choice));
    }

    /**
     * ReadMsg: a message is refused, changing nothing, when it failed, when neither it nor the
     * page knows the page's key, or when the page's key is unknown and the message is not
     * personal. Otherwise the room and player list it carries replace the page's, a personal
     * message's secret and key are adopted, and the message is accepted exactly when the list
     * holds the page's key; the page's data is then that row's.
     */
    method ReadMsg(msg: Reply, personal: bool) returns (accepted: bool)
      modifies this
      ensures !Admitted(msg, personal, old(me.key)) ==>
        !accepted && room == old(room) && playerList == old(playerList) && me == old(me)
      ensures Admitted(msg, personal, old(me.key)) ==>
        room == (if msg.roomData.Some? then Loaded(msg.roomData.value) else old(room)) &&
        playerList == (if msg.playerList.Some? then msg.playerList.value else old(playerList)) &&
        var adopted := Adopt(old(me), msg, personal);
        (accepted <==> FindKey(playerList, adopted.key) < |playerList|) &&
        me == (if accepted then Merge(adopted, playerList[FindKey(playerList, adopted.key)]) else adopted)
      ensures accepted ==> me.key.Some? && Synced(me, playerList)
    {
      if !msg.success { return false; }
      if !KnownKey(msg.playerKey) && !KnownKey(me.key) { return false; }
      if !KnownKey(me.key) && !personal { return false; }

      if msg.roomData.Some? { room := Loaded(msg.roomData.value); }
      if msg.playerList.Some? { playerList := msg.playerList.value; }

      if personal {
        if msg.playerSecret.Some? && msg.playerSecret.value != "" { me := me.(secret := msg.playerSecret); }
        if KnownKey(msg.playerKey) { me := me.(key := msg.playerKey); }
      }

      var i := FindKey(playerList, me.key);
      if i == |playerList| { return false; }
      me := Merge(me, playerList[i]);
      return true;
    }
  }

  // ---------------------------------------------------------------------------------------
  // The progress bar's count of players who have guessed
  // ---------------------------------------------------------------------------------------

  /** A player the progress bar waits for: active and not the current player. */
  predicate Guesser(p: PlayerData, current: Option<int>) { p.active && Some(p.index) != current }

  /** activeGuesserList: the list filtered to the guessers, in order. */
  function Guessers(list: seq<PlayerData>, current: Option<int>): (g: seq<PlayerData>)
    ensures |g| <= |list|
    ensures forall i :: 0 <= i < |g| ==> Guesser(g[i], current)
  {
    if list == [] then []
    else
      var rest := Guessers(list[..|list| - 1], current);
      if Guesser(list[|list| - 1], current) then rest + [list[|list| - 1]] else rest
  }

  /** The reduce over the guessers' choices: how many are not null. */
  function CountChosen(g: seq<PlayerData>): nat
  {
    if g == [] then 0 else CountChosen(g[..|g| - 1]) + if g[|g| - 1].choice.Some? then 1 else 0
  }

  /** guessedPlayersCount in UpdateProgressBar. */
  function GuessedCount(list: seq<PlayerData>, current: Option<int>): nat
  {
    CountChosen(Guessers(list, current))
  }

  /** The count is the number of active players, other than the current one, with a choice. */
  lemma {:induction false} GuessedCountCounts(list: seq<PlayerData>, current: Option<int>)
    ensures GuessedCount(list, current) ==
      |set i | 0 <= i < |list| && Guesser(list[i], current) && list[i].choice.Some?|
    decreases |list|
  {
    if list != [] {
      var n := |list| - 1;
      var init := list[..n];
      GuessedCountCounts(init, current);
      var s := set i | 0 <= i < |list| && Guesser(list[i], current) && list[i].choice.Some?;
      var s' := set i | 0 <= i < |init| && Guesser(init[i], current) && init[i].choice.Some?;
      var rest := Guessers(init, current);
      assert forall i :: 0 <= i < n ==> init[i] == list[i];
      if Guesser(list[n], current) {
        assert (rest + [list[n]])[..|rest|] == rest;
      }
      if Guesser(list[n], current) && list[n].choice.Some? {
        assert s == s' + {n};
      } else {
        assert s == s';
      }
    }
  }

  /** "Everyone has guessed" exactly when every guesser has a choice. */
  lemma {:induction false} EveryoneGuessed(g: seq<PlayerData>)
    ensures CountChosen(g) <= |g|
    ensures CountChosen(g) == |g| <==> forall i :: 0 <= i < |g| ==> g[i].choice.Some?
    decreases |g|
  {
    if g != [] {
      EveryoneGuessed(g[..|g| - 1]);
      assert forall i :: 0 <= i < |g| - 1 ==> g[..|g| - 1][i] == g[i];
    }
  }
}
