/** What a safe name is of the name it was made from: the last part of the path, unit by unit, without its loose end. */
module SafeNames {
  import opened AssetNames
  import Decimal

  predicate Separator(c: char) { c == '/' || c == '\\' }

  /** Control characters go, reserved ones become "_", all others stay. */
  function UnitFor(c: char): Name {
    if c < '\U{20}' || c == '\U{7F}' then ""
    else if c in {'<', '>', ':', '"', '/', '\\', '|', '?', '*'} then "_"
    else [c]
  }

  function Cleaned(part: Name): Name {
    if part == "" then "" else UnitFor(part[0]) + Cleaned(part[1..])
  }

  lemma {:induction false} CleanedUnit(c: char, x: Name)
    ensures Cleaned([c] + x) == UnitFor(c) + Cleaned(x)
  {
    assert ([c] + x)[1..] == x;
  }

  lemma {:induction false} CleanedAppend(a: Name, b: Name)
    ensures Cleaned(a + b) == Cleaned(a) + Cleaned(b)
  {
    if a == "" {
      assert a + b == b;
    } else {
      var c, x := a[0], a[1..];
      assert Cleaned(a + b) == UnitFor(c) + Cleaned(x + b) by {
        assert a + b == [c] + (x + b);
        CleanedUnit(c, x + b);
      }
      assert Cleaned(a) == UnitFor(c) + Cleaned(x);
      CleanedAppend(x, b);
    }
  }

  lemma {:induction false} UnitIs(c: char)
    ensures CleanUnit(c) == UnitFor(c) && Cleaned([c]) == UnitFor(c)
  {
    assert [c][1..] == "";
  }

  lemma {:induction false} CleanIs(part: Name)
    ensures CleanUnits(part) == Cleaned(part)
  {
    if part != "" {
      var n := |part| - 1;
      CleanIs(part[..n]);
      CleanedAppend(part[..n], [part[n]]);
      UnitIs(part[n]);
      assert part == part[..n] + [part[n]];
    }
  }

  /** What comes behind the last separator of either kind. */
  lemma {:induction false} LastPartIs(front: Name, part: Name)
    requires front == "" || Separator(front[|front| - 1])
    requires forall k :: 0 <= k < |part| ==> !Separator(part[k])
    ensures LastPart(front + part) == part
  {
    var s := front + part;
    if part == "" {
      assert s == front;
    } else {
      var n := |part| - 1;
      assert s[..|s| - 1] == front + part[..n] && s[|s| - 1] == part[n];
      LastPartIs(front, part[..n]);
      assert part == part[..n] + [part[n]];
    }
  }

  /** Dots and spaces at the end go. */
  lemma {:induction false} TrimIs(kept: Name, end: Name)
    requires kept == "" || (kept[|kept| - 1] != ' ' && kept[|kept| - 1] != '.')
    requires forall k :: 0 <= k < |end| ==> end[k] == ' ' || end[k] == '.'
    ensures TrimEnd(kept + end) == kept
  {
    var s := kept + end;
    if end == "" {
      assert s == kept;
    } else {
      var n := |end| - 1;
      assert s[..|s| - 1] == kept + end[..n] && s[|s| - 1] == end[n];
      TrimIs(kept, end[..n]);
    }
  }

  /** The names of devices, in any case. */
  lemma {:induction false} DeviceIs(base: Name)
    ensures Device(base) <==>
      var u := ToUpper(base);
      u in {"CON", "PRN", "AUX", "NUL"} || (|u| == 4 && u[..3] in {"COM", "LPT"} && '1' <= u[3] <= '9')
  {
    var u := ToUpper(base);
    if |u| == 4 && u[..3] in {"COM", "LPT"} && '1' <= u[3] <= '9' { NumberedDevice(u); }
    if Device(base) && u !in {"CON", "PRN", "AUX", "NUL"} { DeviceNumbered(u); }
  }

  /** A name of three letters and a digit. */
  lemma {:induction false} NumberedNames()
    ensures "COM1" == "COM" + ['1'] && "COM2" == "COM" + ['2'] && "COM3" == "COM" + ['3']
      && "COM4" == "COM" + ['4'] && "COM5" == "COM" + ['5'] && "COM6" == "COM" + ['6']
      && "COM7" == "COM" + ['7'] && "COM8" == "COM" + ['8'] && "COM9" == "COM" + ['9']
    ensures "LPT1" == "LPT" + ['1'] && "LPT2" == "LPT" + ['2'] && "LPT3" == "LPT" + ['3']
      && "LPT4" == "LPT" + ['4'] && "LPT5" == "LPT" + ['5'] && "LPT6" == "LPT" + ['6']
      && "LPT7" == "LPT" + ['7'] && "LPT8" == "LPT" + ['8'] && "LPT9" == "LPT" + ['9']
  {
  }

  lemma {:induction false} NumberedDevice(u: Name)
    requires |u| == 4 && u[..3] in {"COM", "LPT"} && '1' <= u[3] <= '9'
    ensures u in DEVICES
  {
    NumberedNames();
    assert u == u[..3] + [u[3]];
    var c := u[3];
    assert c == '1' || c == '2' || c == '3' || c == '4' || c == '5' || c == '6' || c == '7' || c == '8' || c == '9';
  }

  lemma {:induction false} DeviceNumbered(u: Name)
    requires u in DEVICES && u !in {"CON", "PRN", "AUX", "NUL"}
    ensures |u| == 4 && u[..3] in {"COM", "LPT"} && '1' <= u[3] <= '9'
  {
    NumberedNames();
    assert |u| == 4;
    if u[0] == 'C' { assert u[..3] == "COM"; } else { assert u[..3] == "LPT"; }
  }

  /**
    The safe name of a path: its last part with every unit cleaned and the dots and spaces at its end gone; marked when
    what comes before its last dot is a device; "file" when nothing is left.
   */
  lemma {:induction false} SafeNameIs(front: Name, part: Name, kept: Name, end: Name)
    requires (front == "" || Separator(front[|front| - 1])) && forall k :: 0 <= k < |part| ==> !Separator(part[k])
    requires Cleaned(part) == kept + end && (kept == "" || (kept[|kept| - 1] != ' ' && kept[|kept| - 1] != '.'))
    requires forall k :: 0 <= k < |end| ==> end[k] == ' ' || end[k] == '.'
    ensures Sanitize(front + part)
         == if kept == "" then "file" else if Device(BaseOf(kept)) then "_" + kept else kept
  {
    LastPartIs(front, part);
    CleanIs(part);
    TrimIs(kept, end);
    if kept != "" { FinishedIs(kept); }
  }

  /** What comes before the last dot, unless that is the first character. */
  lemma {:induction false} BaseIs(base: Name, ext: Name)
    requires base != "" && forall k :: 0 <= k < |ext| ==> ext[k] != '.'
    ensures BaseOf(base + ("." + ext)) == base
    ensures BaseOf(ext) == ext && BaseOf("." + ext) == "." + ext
  {
    var s, t := base + ("." + ext), "." + ext;
    assert forall k :: |base| < k < |s| ==> s[k] == ext[k - |base| - 1];
    LastDotIs(s, |base|);
    LastDotIs(ext, -1);
    LastDotIs(t, 0);
  }

  // ----- numbered names ------------------------------------------------------------------------------------

  /** A hyphen and the number, written without leading zeros, before the extension. */
  lemma {:induction false} NumberedIs(base: Name, ext: Name, d: string, i: nat)
    requires Decimal.Written(d) && Decimal.ValueOf(d) == i
    ensures Numbered(base, "", i) == base + ("-" + d)
    ensures ext != "" ==> Numbered(base, ext, i) == base + ("-" + (d + ("." + ext)))
  {
    Decimal.WrittenDigits(d);
  }
}
