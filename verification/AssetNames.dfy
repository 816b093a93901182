/**
  Names for files in the assets folder: a safe name made of any name, and a free one in a folder. A file name is
  the text its bytes decode to; a folder is the set of names that exist in it.
 */
module AssetNames {
  import Decimal

  type Name = string

  // ----- free names ----------------------------------------------------------------------------------------

  function NameFor(base: Name, ext: Name): Name {
    if ext == "" then base else base + ("." + ext)
  }

  function Numbered(base: Name, ext: Name, i: nat): Name {
    NameFor(base + ("-" + Decimal.Digits(i)), ext)
  }

  lemma {:induction false} SameTail(base: Name, x: Name, y: Name, tail: Name)
    requires (base + x) + tail == (base + y) + tail
    ensures x == y
  {
    var s := (base + x) + tail;
    assert x == s[|base|..|s| - |tail|];
    assert y == s[|base|..|s| - |tail|];
  }

  /** No two numbers make the same name, and none makes the plain one. */
  lemma {:induction false} NumberedDiffer(base: Name, ext: Name, i: nat, j: nat)
    ensures Numbered(base, ext, i) == Numbered(base, ext, j) ==> i == j
    ensures Numbered(base, ext, i) != NameFor(base, ext)
  {
    var x, y, tail := "-" + Decimal.Digits(i), "-" + Decimal.Digits(j), if ext == "" then "" else "." + ext;
    assert Numbered(base, ext, i) == (base + x) + tail && Numbered(base, ext, j) == (base + y) + tail;
    assert NameFor(base, ext) == base + tail;
    assert |Numbered(base, ext, i)| > |NameFor(base, ext)|;
    if Numbered(base, ext, i) == Numbered(base, ext, j) {
      SameTail(base, x, y, tail);
      assert Decimal.Digits(i) == x[1..] && Decimal.Digits(j) == y[1..];
      Decimal.DigitsInjective(i, j);
    }
  }

  /** The plain name and the first numbered ones, all of them taken. */
  ghost predicate Taken(dir: set<Name>, base: Name, ext: Name, i: nat) {
    NameFor(base, ext) in dir && forall j :: 2 <= j < i ==> Numbered(base, ext, j) in dir
  }

  /** As many names are taken as were tried. */
  lemma {:induction false} TriedNames(dir: set<Name>, base: Name, ext: Name, i: nat) returns (tried: set<Name>)
    requires i >= 2 && Taken(dir, base, ext, i)
    ensures tried <= dir && |tried| == i - 1
    ensures forall j :: j >= i ==> Numbered(base, ext, j) !in tried
    decreases i
  {
    if i == 2 {
      tried := {NameFor(base, ext)};
      forall j | j >= i ensures Numbered(base, ext, j) !in tried { NumberedDiffer(base, ext, j, j); }
    } else {
      var fewer := TriedNames(dir, base, ext, i - 1);
      tried := fewer + {Numbered(base, ext, i - 1)};
      forall j | j >= i ensures Numbered(base, ext, j) !in tried { NumberedDiffer(base, ext, i - 1, j); }
    }
  }

  lemma {:induction false} SubsetSize(a: set<Name>, b: set<Name>)
    requires a <= b
    ensures |a| <= |b|
  {
    assert b == a + (b - a);
  }

  /** A folder of n names cannot have taken n of the numbered ones and the plain one. */
  lemma {:induction false} FewTries(dir: set<Name>, base: Name, ext: Name, i: nat)
    requires i >= 2 && Taken(dir, base, ext, i)
    ensures i <= |dir| + 1
  {
    var tried := TriedNames(dir, base, ext, i);
    SubsetSize(tried, dir);
  }

  /**
    The search has no bound of its own, and ends: the name is free, and it is the plain one when that is free, or
    else the one with the least number from two on, which is at most one more than there are files.
   */
  method UniqueAssetPath(dir: set<Name>, base: Name, ext: Name) returns (name: Name)
    ensures name !in dir
    ensures NameFor(base, ext) !in dir ==> name == NameFor(base, ext)
    ensures NameFor(base, ext) in dir ==>
      exists i: nat :: 2 <= i <= |dir| + 1 && name == Numbered(base, ext, i) && Taken(dir, base, ext, i)
  {
    name := NameFor(base, ext);
    if name !in dir { return; }
    var i := 2;
    name := Numbered(base, ext, i);
    FewTries(dir, base, ext, 2);
    while name in dir
      invariant 2 <= i <= |dir| + 1 && name == Numbered(base, ext, i) && Taken(dir, base, ext, i)
      decreases |dir| + 1 - i
    {
      i := i + 1;
      name := Numbered(base, ext, i);
      FewTries(dir, base, ext, i);
    }
  }

  // ----- safe names ----------------------------------------------------------------------------------------

  predicate Control(c: char) { c < ' ' || c == '\U{7F}' }

  predicate Special(c: char) { c in "<>:\"/\\|?*" }

  predicate Safe(c: char) { !Control(c) && !Special(c) }

  predicate AllSafe(s: Name) {
    forall k :: 0 <= k < |s| ==> Safe(s[k])
  }

  /** What comes after the last separator of either kind. */
  function LastPart(s: Name): (r: Name)
    ensures forall k :: 0 <= k < |r| ==> r[k] != '/' && r[k] != '\\'
  {
    if s == "" || s[|s| - 1] == '/' || s[|s| - 1] == '\\' then "" else LastPart(s[..|s| - 1]) + [s[|s| - 1]]
  }

  function CleanUnit(c: char): Name {
    if Control(c) then "" else if Special(c) then "_" else [c]
  }

  function CleanUnits(s: Name): (r: Name)
    ensures AllSafe(r)
  {
    if s == "" then "" else CleanUnits(s[..|s| - 1]) + CleanUnit(s[|s| - 1])
  }

  function TrimEnd(s: Name): (r: Name)
    ensures r <= s && (r != "" ==> r[|r| - 1] != ' ' && r[|r| - 1] != '.')
  {
    if s != "" && (s[|s| - 1] == ' ' || s[|s| - 1] == '.') then TrimEnd(s[..|s| - 1]) else s
  }

  function LastDot(s: Name): (i: int)
    ensures -1 <= i < |s| && (i >= 0 ==> s[i] == '.') && forall k :: i < k < |s| ==> s[k] != '.'
  {
    if s == "" then -1 else if s[|s| - 1] == '.' then |s| - 1 else LastDot(s[..|s| - 1])
  }

  function BaseOf(s: Name): Name { if LastDot(s) > 0 then s[..LastDot(s)] else s }

  function ExtOf(s: Name): Name { if LastDot(s) > 0 then s[LastDot(s) + 1..] else "" }

  function Upper(c: char): char { if 'a' <= c <= 'z' then (c as int - 32) as char else c }

  function ToUpper(s: Name): (r: Name)
    ensures |r| == |s| && forall k :: 0 <= k < |s| ==> r[k] == Upper(s[k])
  {
    if s == "" then "" else ToUpper(s[..|s| - 1]) + [Upper(s[|s| - 1])]
  }

  const DEVICES: set<Name> := {
    "CON", "PRN", "AUX", "NUL",
    "COM1", "COM2", "COM3", "COM4", "COM5", "COM6", "COM7", "COM8", "COM9",
    "LPT1", "LPT2", "LPT3", "LPT4", "LPT5", "LPT6", "LPT7", "LPT8", "LPT9"
  }

  predicate Device(base: Name) { ToUpper(base) in DEVICES }

  /** A cleaned name, with a device name disarmed. */
  function Finished(n: Name): Name {
    if n == "" then "file"
    else NameFor(if Device(BaseOf(n)) then "_" + BaseOf(n) else BaseOf(n), ExtOf(n))
  }

  function Sanitize(name: Name): Name {
    Finished(TrimEnd(CleanUnits(LastPart(name))))
  }

  method SanitizeAssetFileName(name: Name) returns (r: Name)
    ensures r == Sanitize(name)
  {
    var part := LastPart(name);
    var b := "";
    for i := 0 to |part|
      invariant b == CleanUnits(part[..i])
    {
      assert part[..i + 1][..i] == part[..i];
      if !Control(part[i]) {
        b := b + if Special(part[i]) then "_" else [part[i]];
      }
    }
    assert part[..|part|] == part;
    var n := TrimEnd(b);
    if n == "" { return "file"; }
    var base, ext := BaseOf(n), ExtOf(n);
    if Device(base) { base := "_" + base; }
    r := NameFor(base, ext);
  }

  /** A name without an end to trim is put together again as it was, but for the mark before a device. */
  lemma {:induction false} Rejoined(n: Name)
    requires n != "" && n[|n| - 1] != '.'
    ensures NameFor(BaseOf(n), ExtOf(n)) == n && NameFor("_" + BaseOf(n), ExtOf(n)) == "_" + n
  {
    var i := LastDot(n);
    if i > 0 {
      var base, ext := n[..i], "." + n[i + 1..];
      assert n == base + ext && ExtOf(n) != "";
      assert "_" + n == ("_" + base) + ext;
    }
  }

  /** A name as sanitizing leaves it. */
  ghost predicate Sane(s: Name) {
    s != "" && AllSafe(s) && s[|s| - 1] != ' ' && s[|s| - 1] != '.' && !Device(BaseOf(s))
  }

  lemma {:induction false} LastDotIs(s: Name, i: int)
    requires -1 <= i < |s| && (i >= 0 ==> s[i] == '.') && forall k :: i < k < |s| ==> s[k] != '.'
    ensures LastDot(s) == i
  {
  }

  lemma {:induction false} MarkedDot(n: Name)
    ensures LastDot("_" + n) == if LastDot(n) >= 0 then LastDot(n) + 1 else -1
  {
    if n == "" {
      assert ("_" + n)[..0] == "";
    } else {
      assert ("_" + n)[..|n|] == "_" + n[..|n| - 1] && ("_" + n)[|n|] == n[|n| - 1];
      if n[|n| - 1] != '.' { MarkedDot(n[..|n| - 1]); }
    }
  }

  lemma {:induction false} MarkedStart(n: Name)
    requires n != "" && n[0] != '.'
    ensures BaseOf("_" + n) != "" && BaseOf("_" + n)[0] == '_'
  {
    MarkedDot(n);
  }

  lemma {:induction false} BaseStart(n: Name)
    requires n != "" && forall k :: 0 <= k < |BaseOf(n)| ==> BaseOf(n)[k] != '.'
    ensures n[0] != '.'
  {
    assert BaseOf(n) != "" && BaseOf(n)[0] == n[0];
  }

  lemma {:induction false} NoMarkedDevice(base: Name)
    requires base != "" && base[0] == '_'
    ensures !Device(base)
  {
    assert ToUpper(base)[0] == '_';
  }

  lemma {:induction false} MarkedBase(n: Name)
    requires n != "" && Device(BaseOf(n))
    ensures !Device(BaseOf("_" + n))
  {
    DeviceHasNoDot(BaseOf(n));
    BaseStart(n);
    MarkedStart(n);
    NoMarkedDevice(BaseOf("_" + n));
  }

  lemma {:induction false} DeviceHasNoDot(base: Name)
    requires Device(base)
    ensures forall k :: 0 <= k < |base| ==> base[k] != '.'
  {
    var u := ToUpper(base);
    forall k | 0 <= k < |base| ensures base[k] != '.' { assert u[k] == Upper(base[k]); }
  }

  lemma {:induction false} FinishedIs(n: Name)
    requires n != "" && n[|n| - 1] != '.'
    ensures Finished(n) == if Device(BaseOf(n)) then "_" + n else n
  {
    Rejoined(n);
  }

  lemma {:induction false} MarkedSane(n: Name)
    requires n != "" && AllSafe(n) && n[|n| - 1] != ' ' && n[|n| - 1] != '.' && Device(BaseOf(n))
    ensures Sane("_" + n)
  {
    var m := "_" + n;
    assert AllSafe(m) && m[|m| - 1] == n[|n| - 1];
    assert !Device(BaseOf(m)) by { MarkedBase(n); }
  }

  lemma {:induction false} FinishedSane(n: Name)
    requires AllSafe(n) && (n != "" ==> n[|n| - 1] != ' ' && n[|n| - 1] != '.')
    ensures Sane(Finished(n))
  {
    if n == "" {
      FileSane();
    } else if Device(BaseOf(n)) {
      assert Finished(n) == "_" + n by { FinishedIs(n); }
      MarkedSane(n);
    } else {
      assert Finished(n) == n by { FinishedIs(n); }
    }
  }

  lemma {:induction false} FileSane()
    ensures Sane("file")
  {
    LastDotIs("file", -1);
    assert ToUpper("file")[0] == 'F';
  }

  /**
    Whatever the name: the result is not empty, holds no separator, control or reserved character, ends in no dot or
    space, and what comes before its last dot is no device.
   */
  lemma {:induction false} SanitizedIsSane(name: Name)
    ensures Sane(Sanitize(name))
  {
    FinishedSane(TrimEnd(CleanUnits(LastPart(name))));
  }

  // ----- device names --------------------------------------------------------------------------------------

  /** What comes before the first dot; the operating system looks at no more of a name to tell a device. */
  function FirstPart(s: Name): (r: Name)
    ensures r <= s && (forall k :: 0 <= k < |r| ==> r[k] != '.') && (|r| < |s| ==> s[|r|] == '.')
  {
    if s == "" || s[0] == '.' then ""
    else
      assert [s[0]] + s[1..] == s;
      [s[0]] + FirstPart(s[1..])
  }

  predicate NamesDevice(s: Name) { Device(FirstPart(s)) }

  lemma {:induction false} FirstPartIs(r: Name, rest: Name)
    requires (forall k :: 0 <= k < |r| ==> r[k] != '.') && (rest != "" ==> rest[0] == '.')
    ensures FirstPart(r + rest) == r
  {
    if r != "" {
      FirstPartIs(r[1..], rest);
      assert (r + rest)[1..] == r[1..] + rest;
    } else {
      assert r + rest == rest;
    }
  }

  /** The mark goes on exactly when what comes before the last dot is a device, and then the name is none. */
  lemma {:induction false} FinishedDevice(n: Name)
    requires n != "" && n[|n| - 1] != '.'
    ensures NamesDevice(Finished(n)) <==> NamesDevice(n) && !Device(BaseOf(n))
  {
    FinishedIs(n);
    if Device(BaseOf(n)) {
      var m := "_" + n;
      var f := FirstPart(m);
      assert m[0] == '_' && f != "" && f[0] == '_';
      NoMarkedDevice(f);
    }
  }

  /** Only the part before the last dot is looked at: the safe name is a device exactly when there are two dots. */
  lemma {:induction false} DeviceSlips(name: Name)
    ensures var n := TrimEnd(CleanUnits(LastPart(name)));
      NamesDevice(Sanitize(name)) <==> NamesDevice(n) && '.' in BaseOf(n)
  {
    var n := TrimEnd(CleanUnits(LastPart(name)));
    if n == "" {
      FirstPartIs("file", "");
      assert "file" + "" == "file";
      FileSane();
      LastDotIs("file", -1);
    } else {
      FinishedDevice(n);
      if NamesDevice(n) { DottedBase(n); }
    }
  }

  /** What comes before the last dot is a device exactly when it holds no other dot. */
  lemma {:induction false} DottedBase(n: Name)
    requires NamesDevice(n)
    ensures Device(BaseOf(n)) <==> '.' !in BaseOf(n)
  {
    var f := FirstPart(n);
    if '.' in BaseOf(n) {
      if Device(BaseOf(n)) { DeviceHasNoDot(BaseOf(n)); }
    } else {
      assert |ToUpper(f)| == |f| && "" !in DEVICES;
      assert f == BaseOf(n);
    }
  }

  /** "nul.tar.gz" is left as it is. */
  lemma {:induction false} SlippedDevice(n: Name)
    requires n == "nul.tar.gz"
    ensures Sanitize(n) == n && NamesDevice(n)
  {
    assert Sanitize(n) == n by {
      SlippedSane(n);
      SaneStays(n);
    }
    assert NamesDevice(n) by { NulFirst(n); }
  }

  lemma {:induction false} NulFirst(n: Name)
    requires n == "nul.tar.gz"
    ensures NamesDevice(n)
  {
    var r, rest := "nul", ".tar.gz";
    FirstPartIs(r, rest);
    assert r + rest == n;
    NulIsDevice();
  }

  lemma {:induction false} SlippedSane(n: Name)
    requires n == "nul.tar.gz"
    ensures Sane(n)
  {
    LastDotIs(n, 7);
    var base := BaseOf(n);
    assert base == "nul.tar" && base[3] == '.';
    if Device(base) { DeviceHasNoDot(base); }
  }

  lemma {:induction false} NulIsDevice()
    ensures Device("nul")
  {
    assert ToUpper("nul") == "NUL";
  }

  lemma {:induction false} SafeStays(s: Name)
    requires AllSafe(s)
    ensures LastPart(s) == s && CleanUnits(s) == s
  {
    if s != "" {
      assert Safe(s[|s| - 1]);
      SafeStays(s[..|s| - 1]);
    }
  }

  /** A sane name stays as it is. */
  lemma {:induction false} SaneStays(s: Name)
    requires Sane(s)
    ensures Sanitize(s) == s
  {
    SafeStays(s);
    Rejoined(s);
  }

  /** Sanitizing twice is sanitizing once, and a name is left alone exactly when it is sane. */
  lemma {:induction false} SanitizeIdempotent(name: Name)
    ensures Sanitize(Sanitize(name)) == Sanitize(name)
    ensures Sanitize(name) == name <==> Sane(name)
  {
    SanitizedIsSane(name);
    SaneStays(Sanitize(name));
    if Sane(name) { SaneStays(name); }
  }
}
