/**
  The keycode table used to rewrite numeric key modifiers to key names.
  Codes whose key value depends on the keyboard layout or the platform
  (the digit row, the meta keys, the numeric pad) are deliberately absent.
 */
module KeycodeToKey {
  import opened Lint

  /** The table: the key name of a code, if it has one. */
  function KeyName(code: int): (r: Option<string>)
    ensures r.Some? ==> 8 <= code <= 145 && r.value != ""
    ensures r.Some? ==> KeyCode(r.value) == Some(code)
  {
    match code
    case 8 => Some("backspace")
    case 9 => Some("tab")
    case 13 => Some("enter")
    case 16 => Some("shift")
    case 17 => Some("ctrl")
    case 18 => Some("alt")
    case 19 => Some("pause")
    case 20 => Some("caps-lock")
    case 27 => Some("escape")
    case 32 => Some("space")
    case 33 => Some("page-up")
    case 34 => Some("page-down")
    case 35 => Some("end")
    case 36 => Some("home")
    case 37 => Some("arrow-left")
    case 38 => Some("arrow-up")
    case 39 => Some("arrow-right")
    case 40 => Some("arrow-down")
    case 45 => Some("insert")
    case 46 => Some("delete")
    case 65 => Some("a")
    case 66 => Some("b")
    case 67 => Some("c")
    case 68 => Some("d")
    case 69 => Some("e")
    case 70 => Some("f")
    case 71 => Some("g")
    case 72 => Some("h")
    case 73 => Some("i")
    case 74 => Some("j")
    case 75 => Some("k")
    case 76 => Some("l")
    case 77 => Some("m")
    case 78 => Some("n")
    case 79 => Some("o")
    case 80 => Some("p")
    case 81 => Some("q")
    case 82 => Some("r")
    case 83 => Some("s")
    case 84 => Some("t")
    case 85 => Some("u")
    case 86 => Some("v")
    case 87 => Some("w")
    case 88 => Some("x")
    case 89 => Some("y")
    case 90 => Some("z")
    case 112 => Some("f1")
    case 113 => Some("f2")
    case 114 => Some("f3")
    case 115 => Some("f4")
    case 116 => Some("f5")
    case 117 => Some("f6")
    case 118 => Some("f7")
    case 119 => Some("f8")
    case 120 => Some("f9")
    case 121 => Some("f10")
    case 122 => Some("f11")
    case 123 => Some("f12")
    case 144 => Some("num-lock")
    case 145 => Some("scroll-lock")
    case _ => None
  }

  /**
    The inverse table: the code of a key name, if it names one. The source
    has no such table; it exists to state that the key names are distinct.
   */
  function KeyCode(name: string): Option<int> {
    match name
    case "backspace" => Some(8)
    case "tab" => Some(9)
    case "enter" => Some(13)
    case "shift" => Some(16)
    case "ctrl" => Some(17)
    case "alt" => Some(18)
    case "pause" => Some(19)
    case "caps-lock" => Some(20)
    case "escape" => Some(27)
    case "space" => Some(32)
    case "page-up" => Some(33)
    case "page-down" => Some(34)
    case "end" => Some(35)
    case "home" => Some(36)
    case "arrow-left" => Some(37)
    case "arrow-up" => Some(38)
    case "arrow-right" => Some(39)
    case "arrow-down" => Some(40)
    case "insert" => Some(45)
    case "delete" => Some(46)
    case "a" => Some(65)
    case "b" => Some(66)
    case "c" => Some(67)
    case "d" => Some(68)
    case "e" => Some(69)
    case "f" => Some(70)
    case "g" => Some(71)
    case "h" => Some(72)
    case "i" => Some(73)
    case "j" => Some(74)
    case "k" => Some(75)
    case "l" => Some(76)
    case "m" => Some(77)
    case "n" => Some(78)
    case "o" => Some(79)
    case "p" => Some(80)
    case "q" => Some(81)
    case "r" => Some(82)
    case "s" => Some(83)
    case "t" => Some(84)
    case "u" => Some(85)
    case "v" => Some(86)
    case "w" => Some(87)
    case "x" => Some(88)
    case "y" => Some(89)
    case "z" => Some(90)
    case "f1" => Some(112)
    case "f2" => Some(113)
    case "f3" => Some(114)
    case "f4" => Some(115)
    case "f5" => Some(116)
    case "f6" => Some(117)
    case "f7" => Some(118)
    case "f8" => Some(119)
    case "f9" => Some(120)
    case "f10" => Some(121)
    case "f11" => Some(122)
    case "f12" => Some(123)
    case "num-lock" => Some(144)
    case "scroll-lock" => Some(145)
    case _ => None
  }

  /** Codes 65 to 90 are the letters `a` to `z`, in order. */
  lemma LettersContiguous(code: int)
    requires 65 <= code <= 90
    ensures KeyName(code) == Some(["abcdefghijklmnopqrstuvwxyz"[code - 65]])
  {
  }

  /** Codes 112 to 123 are the function keys `f1` to `f12`. */
  lemma FunctionKeys(code: int)
    requires 112 <= code <= 123
    ensures KeyName(code) == Some("f" + NatToString(code - 111))
  {
    var n := code - 111;
    if n < 10 {
      assert NatToString(n) == [DigitChar(n)];
      assert DigitChar(n) == "123456789"[n - 1];
      assert "f" + NatToString(n) == ['f', "123456789"[n - 1]];
      assert KeyName(code) == Some(['f', "123456789"[n - 1]]);
    } else {
      assert NatToString(n) == NatToString(1) + [DigitChar(n - 10)] == ['1', DigitChar(n - 10)];
      assert DigitChar(n - 10) == "012"[n - 10];
      assert "f" + NatToString(n) == ['f', '1', "012"[n - 10]];
      assert KeyName(code) == Some(['f', '1', "012"[n - 10]]);
    }
  }

  /** The digit row, the meta keys and the numeric pad have no entry. */
  lemma LayoutDependentCodesAbsent(code: int)
    requires 48 <= code <= 57 || 91 <= code <= 93 || 96 <= code <= 111
    ensures KeyName(code).None?
  {
  }

  lemma NamedKeys()
    ensures KeyName(32) == Some("space")
    ensures KeyName(27) == Some("escape")
  {
  }

  /** The inverse table undoes the lookup on every code of the table. */
  lemma KeyCodeInverts(code: int)
    requires KeyName(code).Some?
    ensures KeyCode(KeyName(code).value) == Some(code)
  {
  }

  /** No two codes share a key name, so a key name determines its code. */
  lemma KeyNamesDistinct(a: int, b: int)
    requires KeyName(a).Some? && KeyName(a) == KeyName(b)
    ensures a == b
  {
    KeyCodeInverts(a);
    KeyCodeInverts(b);
  }
}
