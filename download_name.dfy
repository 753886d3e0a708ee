/**
 * The name of the downloaded image:
 * `menu-${name.replace(/\s+/g, "-").toLowerCase()}.png`.
 */
module DownloadName {

  /** The characters the regular-expression class `\s` of ECMAScript matches. */
  const Whitespace: set<char> := {
    '\t', '\n', '\U{000B}', '\U{000C}', '\r', ' ', '\U{00A0}', '\U{1680}',
    '\U{2000}', '\U{2001}', '\U{2002}', '\U{2003}', '\U{2004}', '\U{2005}',
    '\U{2006}', '\U{2007}', '\U{2008}', '\U{2009}', '\U{200A}',
    '\U{2028}', '\U{2029}', '\U{202F}', '\U{205F}', '\U{3000}', '\U{FEFF}'
  }

  predicate IsWhitespace(c: char)
    ensures IsWhitespace(c) ==> c != '-'
  {
    c in Whitespace
  }

  /** `w` is made of whitespace only. */
  predicate AllWhitespace(w: string)
  {
    w == [] || (IsWhitespace(w[0]) && AllWhitespace(w[1..]))
  }

  /** The upper-case letters of ASCII, of Latin-1 and of the basic Cyrillic block. */
  predicate IsUpper(c: char)
  {
    ('A' <= c <= 'Z') || ('\U{00C0}' <= c <= '\U{00DE}' && c != '\U{00D7}') || ('\U{0400}' <= c <= '\U{042F}')
  }

  /**
   * Lower-casing of one character, for the upper-case letters of ASCII, of Latin-1
   * and of the Cyrillic block (the alphabets the menu is written in); every other
   * character is left as it is.
   */
  function Lower(c: char): (r: char)
    ensures !IsUpper(r)
    ensures !IsUpper(c) ==> r == c
    ensures IsWhitespace(r) <==> IsWhitespace(c)
  {
    if 'A' <= c <= 'Z' then (c as int + 32) as char
    else if '\U{00C0}' <= c <= '\U{00DE}' && c != '\U{00D7}' then (c as int + 32) as char
    else if '\U{0410}' <= c <= '\U{042F}' then (c as int + 32) as char
    else if '\U{0400}' <= c <= '\U{040F}' then (c as int + 80) as char
    else c
  }

  /** `toLowerCase`: every character lower-cased in place. */
  function LowerString(s: string): (r: string)
  {
    seq(|s|, i requires 0 <= i < |s| => Lower(s[i]))
  }

  /** `toLowerCase` keeps the length and leaves no upper-case letter. */
  lemma LowerStringNoUpper(s: string)
    ensures |LowerString(s)| == |s|
    ensures forall i :: 0 <= i < |LowerString(s)| ==> !IsUpper(LowerString(s)[i])
  {
  }

  /** `s` without its leading run of whitespace. */
  function DropWhitespace(s: string): (r: string)
    ensures |r| <= |s|
    ensures r == [] || !IsWhitespace(r[0])
  {
    if s != [] && IsWhitespace(s[0]) then DropWhitespace(s[1..]) else s
  }

  /** `s.replace(/\s+/g, "-")`: a scan that turns each whitespace run it meets into one dash. */
  function Dashify(s: string): (r: string)
    ensures |r| <= |s|
    decreases |s|
  {
    if s == [] then []
    else if IsWhitespace(s[0]) then "-" + Dashify(DropWhitespace(s[1..]))
    else [s[0]] + Dashify(s[1..])
  }

  /** The part of the file name taken from the restaurant name. */
  function Slug(name: string): (r: string)
    ensures |r| <= |name|
    ensures forall i :: 0 <= i < |r| ==> !IsWhitespace(r[i]) && !IsUpper(r[i])
  {
    DashifyNoWhitespace(name);
    LowerStringNoUpper(Dashify(name));
    LowerString(Dashify(name))
  }

  function Filename(name: string): (r: string)
    ensures |r| == |Slug(name)| + 9
    ensures r[..5] == "menu-" && r[|r| - 4..] == ".png" && r[5..|r| - 4] == Slug(name)
  {
    "menu-" + Slug(name) + ".png"
  }

  lemma Assoc(x: string, y: string, z: string)
    ensures x + (y + z) == x + y + z
  {
  }

  lemma TailAppend(a: string, b: string)
    requires a != []
    ensures (a + b)[0] == a[0] && (a + b)[1..] == a[1..] + b
  {
  }

  lemma LowerStringAppend(a: string, b: string)
    ensures LowerString(a + b) == LowerString(a) + LowerString(b)
  {
    assert forall i :: 0 <= i < |a + b| ==> LowerString(a + b)[i] == (LowerString(a) + LowerString(b))[i];
  }

  /** What is dropped is whitespace, and what is kept is a suffix of `s`. */
  lemma {:induction false} DropWhitespaceSuffix(s: string)
    ensures DropWhitespace(s) == s[|s| - |DropWhitespace(s)|..]
    ensures forall i :: 0 <= i < |s| - |DropWhitespace(s)| ==> IsWhitespace(s[i])
    decreases |s|
  {
    if s != [] && IsWhitespace(s[0]) {
      DropWhitespaceSuffix(s[1..]);
    }
  }

  /** Dropping the leading whitespace of a run followed by what comes after it. */
  lemma {:induction false} DropWhitespaceRun(w: string, b: string)
    requires AllWhitespace(w)
    requires b == [] || !IsWhitespace(b[0])
    ensures DropWhitespace(w + b) == b
    decreases |w|
  {
    if w == [] {
      assert w + b == b;
    } else {
      TailAppend(w, b);
      DropWhitespaceRun(w[1..], b);
    }
  }

  /** Dropping leading whitespace of `a + x` when `a` ends in a visible character. */
  lemma {:induction false} DropWhitespaceAppend(a: string, x: string)
    requires a != [] && !IsWhitespace(a[|a| - 1])
    ensures DropWhitespace(a + x) == DropWhitespace(a) + x
    decreases |a|
  {
    if IsWhitespace(a[0]) {
      TailAppend(a, x);
      DropWhitespaceAppend(a[1..], x);
    }
  }

  /** Replacing runs is compositional at a boundary that is not inside a run. */
  lemma {:induction false} DashifyAppend(a: string, x: string)
    requires a == [] || !IsWhitespace(a[|a| - 1])
    ensures Dashify(a + x) == Dashify(a) + Dashify(x)
    decreases |a|
  {
    if a == [] {
      assert a + x == x;
    } else if !IsWhitespace(a[0]) {
      TailAppend(a, x);
      DashifyAppend(a[1..], x);
    } else {
      var t := a[1..];
      TailAppend(a, x);
      DropWhitespaceAppend(t, x);
      var d := DropWhitespace(t);
      DropWhitespaceSuffix(t);
      assert d != [] && d[|d| - 1] == a[|a| - 1];
      DashifyAppend(d, x);
    }
  }

  /** Text without whitespace passes through the replacement unchanged. */
  lemma {:induction false} DashifyWord(s: string)
    requires forall i :: 0 <= i < |s| ==> !IsWhitespace(s[i])
    ensures Dashify(s) == s
    decreases |s|
  {
    if s != [] {
      DashifyWord(s[1..]);
    }
  }

  /** A leading whitespace run followed by a visible character (or nothing) becomes one dash. */
  lemma DashifyLeadingRun(w: string, b: string)
    requires w != [] && AllWhitespace(w)
    requires b == [] || !IsWhitespace(b[0])
    ensures Dashify(w + b) == "-" + Dashify(b)
  {
    TailAppend(w, b);
    DropWhitespaceRun(w[1..], b);
  }

  /** Each maximal whitespace run becomes exactly one dash. */
  lemma DashifyRun(a: string, w: string, b: string)
    requires a == [] || !IsWhitespace(a[|a| - 1])
    requires w != [] && AllWhitespace(w)
    requires b == [] || !IsWhitespace(b[0])
    ensures Dashify(a + w + b) == Dashify(a) + "-" + Dashify(b)
  {
    var x := w + b;
    DashifyLeadingRun(w, b);
    DashifyAppend(a, x);
    Assoc(a, w, b);
    Assoc(Dashify(a), "-", Dashify(b));
  }

  /** In the slug, each maximal whitespace run of the name becomes exactly one dash. */
  lemma SlugRun(a: string, w: string, b: string)
    requires a == [] || !IsWhitespace(a[|a| - 1])
    requires w != [] && AllWhitespace(w)
    requires b == [] || !IsWhitespace(b[0])
    ensures Slug(a + w + b) == Slug(a) + "-" + Slug(b)
  {
    var da, db := Dashify(a), Dashify(b);
    DashifyRun(a, w, b);
    LowerStringAppend(da + "-", db);
    LowerStringAppend(da, "-");
    assert LowerString("-") == "-";
    assert Slug(a + w + b) == LowerString(da + "-" + db);
  }

  /** A name without whitespace is lower-cased character by character, in order. */
  lemma SlugWord(s: string)
    requires forall i :: 0 <= i < |s| ==> !IsWhitespace(s[i])
    ensures Slug(s) == LowerString(s)
    ensures |Slug(s)| == |s| && forall i :: 0 <= i < |s| ==> Slug(s)[i] == Lower(s[i])
  {
    DashifyWord(s);
  }

  /** The replacement leaves no whitespace behind. */
  lemma {:induction false} DashifyNoWhitespace(s: string)
    ensures forall i :: 0 <= i < |Dashify(s)| ==> !IsWhitespace(Dashify(s)[i])
    decreases |s|
  {
    if s != [] {
      if IsWhitespace(s[0]) {
        DashifyNoWhitespace(DropWhitespace(s[1..]));
      } else {
        DashifyNoWhitespace(s[1..]);
      }
    }
  }

  /** Lower-casing before or after the replacement gives the same slug. */
  lemma {:induction false} LowerCommutes(s: string)
    ensures Dashify(LowerString(s)) == LowerString(Dashify(s))
    decreases |s|
  {
    if s != [] {
      var l := LowerString(s);
      var t := s[1..];
      assert l[0] == Lower(s[0]);
      assert l[1..] == LowerString(t);
      if IsWhitespace(s[0]) {
        var d := DropWhitespace(t);
        calc {
          Dashify(l);
          "-" + Dashify(DropWhitespace(LowerString(t)));
          { LowerDropWhitespace(t); }
          "-" + Dashify(LowerString(d));
          { LowerCommutes(d); }
          "-" + LowerString(Dashify(d));
          { LowerStringAppend("-", Dashify(d)); }
          LowerString("-" + Dashify(d));
        }
      } else {
        calc {
          Dashify(l);
          [Lower(s[0])] + Dashify(LowerString(t));
          { LowerCommutes(t); }
          [Lower(s[0])] + LowerString(Dashify(t));
          { LowerStringAppend([s[0]], Dashify(t)); }
          LowerString([s[0]] + Dashify(t));
        }
      }
    }
  }

  lemma {:induction false} LowerDropWhitespace(s: string)
    ensures DropWhitespace(LowerString(s)) == LowerString(DropWhitespace(s))
    decreases |s|
  {
    if s != [] && IsWhitespace(s[0]) {
      assert LowerString(s)[1..] == LowerString(s[1..]);
      LowerDropWhitespace(s[1..]);
    }
  }

  /** The file name is "menu-", then the slug, then ".png", and holds no whitespace in between. */
  lemma FilenameShape(name: string)
    ensures var f := Filename(name);
      |f| == |Slug(name)| + 9 && f[..5] == "menu-" && f[|f| - 4..] == ".png" &&
      f[5..|f| - 4] == Slug(name) &&
      forall i :: 5 <= i < |f| - 4 ==> !IsWhitespace(f[i])
  {
  }

  /** A name of two words separated by one space. */
  lemma FilenameTwoWords(a: string, b: string)
    requires a != [] && forall i :: 0 <= i < |a| ==> !IsWhitespace(a[i])
    requires b != [] && forall i :: 0 <= i < |b| ==> !IsWhitespace(b[i])
    ensures Filename(a + " " + b) == "menu-" + (LowerString(a) + "-" + LowerString(b)) + ".png"
  {
    assert AllWhitespace(" ");
    SlugRun(a, " ", b);
    SlugWord(a);
    SlugWord(b);
  }

  /** The name the component starts with. */
  lemma DefaultFilename()
    ensures Filename("Бистро Бени") == "menu-бистро-бени.png"
  {
    assert "Бистро Бени" == "Бистро" + " " + "Бени";
    FilenameTwoWords("Бистро", "Бени");
    DefaultWords();
    DefaultFilenameText();
  }

  lemma DefaultWords()
    ensures LowerString("Бистро") == "бистро" && LowerString("Бени") == "бени"
  {
  }

  lemma DefaultFilenameText()
    ensures "menu-" + ("бистро" + "-" + "бени") + ".png" == "menu-бистро-бени.png"
  {
  }
}
