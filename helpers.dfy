/** The text helpers of the IK12 client: `sanitizeText`, a fixed pipeline
    (strip special characters, collapse whitespace runs, uppercase, trim)
    whose first three steps are switched by flags, and the two accessors that
    read a submitted form's custom fields by number.  Characters are ASCII:
    the regular expressions' `\s` is the six ASCII whitespace characters and
    `toLocaleUpperCase` maps `a`..`z` to `A`..`Z`. */
module Helpers {
  import opened Wrappers
  import opened Schema

  // ---------------------------------------------------------------------
  // Character classes

  predicate IsLower(c: char) { 'a' <= c <= 'z' }

  predicate IsLetter(c: char) { IsLower(c) || 'A' <= c <= 'Z' }

  predicate IsDigit(c: char) { '0' <= c <= '9' }

  /** `\s` restricted to ASCII: space, tab, line feed, vertical tab, form feed
      and carriage return. */
  predicate IsSpace(c: char) {
    c == ' ' || c == '\t' || c == '\n' || c == '\U{B}' || c == '\U{C}' || c == '\r'
  }

  /** The characters `[a-zA-Z0-9\s]` lets through. */
  predicate IsKept(c: char) { IsLetter(c) || IsDigit(c) || IsSpace(c) }

  /** A lowercase letter becomes its capital, 32 code points lower; every
      other character is unchanged. */
  function UpperChar(c: char): (r: char)
    ensures IsLower(c) ==> r as int == c as int - 32 && 'A' <= r <= 'Z'
    ensures !IsLower(c) ==> r == c
  {
    if IsLower(c) then (c as int - 'a' as int + 'A' as int) as char else c
  }

  predicate AllKept(s: string) { forall i :: 0 <= i < |s| ==> IsKept(s[i]) }

  predicate NoLower(s: string) { forall i :: 0 <= i < |s| ==> !IsLower(s[i]) }

  /** Neither the first nor the last character is whitespace. */
  predicate NoEdgeSpace(s: string) {
    s == [] || (!IsSpace(s[0]) && !IsSpace(s[|s| - 1]))
  }

  /** No two neighbouring characters are both whitespace. */
  predicate NoAdjacentSpace(s: string) {
    forall i :: 0 <= i < |s| - 1 ==> !(IsSpace(s[i]) && IsSpace(s[i + 1]))
  }

  /** The only whitespace character present is the plain space. */
  predicate OnlyPlainSpace(s: string) {
    forall i :: 0 <= i < |s| && IsSpace(s[i]) ==> s[i] == ' '
  }

  /** The characters of `s` that are not whitespace, in order. */
  function NonSpace(s: string): string {
    if s == [] then [] else (if IsSpace(s[0]) then [] else [s[0]]) + NonSpace(s[1..])
  }

  // ---------------------------------------------------------------------
  // The pipeline steps

  /** `replace(/[^a-zA-Z0-9\s]/g, "")`. */
  function StripSpecial(s: string): (r: string)
    ensures AllKept(r) && |r| <= |s|
  {
    if s == [] then []
    else (if IsKept(s[0]) then [s[0]] else []) + StripSpecial(s[1..])
  }

  /** Whitespace characters at the front of `s`, removed. */
  function TrimStart(s: string): (r: string)
    ensures |r| <= |s| && r == s[|s| - |r|..]
    ensures forall i :: 0 <= i < |s| - |r| ==> IsSpace(s[i])
    ensures r == [] || !IsSpace(r[0])
  {
    if s != [] && IsSpace(s[0]) then TrimStart(s[1..]) else s
  }

  /** Whitespace characters at the back of `s`, removed. */
  function TrimEnd(s: string): (r: string)
    ensures |r| <= |s| && r == s[..|r|]
    ensures forall i :: |r| <= i < |s| ==> IsSpace(s[i])
    ensures r == [] || !IsSpace(r[|r| - 1])
  {
    if s != [] && IsSpace(s[|s| - 1]) then TrimEnd(s[..|s| - 1]) else s
  }

  /** `replace(/\s+/g, " ")`: every maximal run of whitespace becomes one space. */
  function Collapse(s: string): (r: string)
    ensures NoAdjacentSpace(r) && OnlyPlainSpace(r)
    ensures (r == []) == (s == []) && |r| <= |s|
    ensures s != [] ==> (IsSpace(r[0]) <==> IsSpace(s[0]))
    ensures AllKept(s) ==> AllKept(r)
    decreases |s|
  {
    if s == [] then []
    else if IsSpace(s[0]) then [' '] + Collapse(TrimStart(s[1..]))
    else [s[0]] + Collapse(s[1..])
  }

  /** `toLocaleUpperCase`, on ASCII: each character is mapped on its own. */
  function Uppercase(s: string): (r: string)
    ensures |r| == |s| && NoLower(r)
    ensures forall i {:trigger r[i]} :: 0 <= i < |s| ==> (IsSpace(r[i]) <==> IsSpace(s[i]))
    ensures forall i {:trigger r[i]} :: 0 <= i < |s| ==> (IsKept(r[i]) <==> IsKept(s[i]))
    ensures forall i {:trigger r[i]} :: 0 <= i < |s| && IsSpace(s[i]) ==> r[i] == s[i]
    ensures forall i {:trigger r[i]} :: 0 <= i < |s| ==> r[i] == UpperChar(s[i])
  {
    seq(|s|, i requires 0 <= i < |s| => UpperChar(s[i]))
  }

  /** `trim()`. */
  function Trim(s: string): (r: string)
    ensures NoEdgeSpace(r)
  {
    TrimEnd(TrimStart(s))
  }

  // ---------------------------------------------------------------------
  // sanitizeText

  /** `SanitizeTextOpts`: every flag is optional, and an unset flag is falsy. */
  datatype SanitizeOpts = SanitizeOpts(
    removeSpecialChars: Option<bool>,
    removeWhitespace: Option<bool>,
    uppercase: Option<bool>)

  /** The default parameter value, used only when no options object is passed. */
  const DefaultSanitizeOpts := SanitizeOpts(Some(true), Some(false), Some(true))

  /** The options in force: a supplied object is taken as it is, with no
      defaults filled in for the flags it leaves out. */
  function InForce(opts: Option<SanitizeOpts>): (r: SanitizeOpts)
    ensures opts.None? ==> On(r.removeSpecialChars) && !On(r.removeWhitespace) && On(r.uppercase)
    ensures opts.Some? ==> r == opts.value
  {
    match opts
    case None => DefaultSanitizeOpts
    case Some(o) => o
  }

  predicate On(flag: Option<bool>) { flag == Some(true) }

  /** `sanitizeText(text, opts)`.  An absent `text` is `None`; an absent
      `opts` is `None`. */
  function SanitizeText(text: Option<string>, opts: Option<SanitizeOpts>): (r: Option<string>)
    ensures r.None? <==> (text.None? || text.value == [])
    ensures r.Some? ==> NoEdgeSpace(r.value)
    ensures r.Some? && On(InForce(opts).removeSpecialChars) ==>
      AllKept(r.value) && |r.value| <= |text.value|
    ensures r.Some? && On(InForce(opts).removeWhitespace) ==>
      NoAdjacentSpace(r.value) && OnlyPlainSpace(r.value)
    ensures r.Some? && On(InForce(opts).uppercase) ==> NoLower(r.value)
  {
    if text.None? || text.value == [] then None
    else
      var steps := Steps(text.value, InForce(opts));
      TrimKeeps(steps);
      Some(Trim(steps))
  }

  /** The three switched steps, in their fixed order: strip, collapse,
      uppercase.  Each later step keeps what the earlier ones established. */
  function Steps(s: string, o: SanitizeOpts): (r: string)
    ensures On(o.removeSpecialChars) ==> AllKept(r) && |r| <= |s|
    ensures On(o.removeWhitespace) ==> NoAdjacentSpace(r) && OnlyPlainSpace(r)
    ensures On(o.uppercase) ==> NoLower(r)
    ensures NonSpace(r) == ContentOf(s, o)
  {
    var stripped := if On(o.removeSpecialChars) then StripSpecial(s) else s;
    var collapsed := if On(o.removeWhitespace) then Collapse(stripped) else stripped;
    NonSpaceStripSpecial(s);
    CollapseKeepsText(stripped);
    NonSpaceUppercase(collapsed);
    if On(o.uppercase) then Uppercase(collapsed) else collapsed
  }

  /** Trimming keeps a slice of its input, so it keeps every property that
      holds character by character or pair by pair. */
  lemma TrimIsSlice(s: string)
    ensures var t := Trim(s);
      && |t| <= |s|
      && forall i :: 0 <= i < |t| ==> t[i] == s[|s| - |TrimStart(s)| + i]
  {
    var u := TrimStart(s);
    assert Trim(s) == u[..|Trim(s)|];
  }

  lemma TrimKeeps(s: string)
    ensures |Trim(s)| <= |s|
    ensures AllKept(s) ==> AllKept(Trim(s))
    ensures NoLower(s) ==> NoLower(Trim(s))
    ensures OnlyPlainSpace(s) ==> OnlyPlainSpace(Trim(s))
    ensures NoAdjacentSpace(s) ==> NoAdjacentSpace(Trim(s))
  {
    TrimIsSlice(s);
  }

  // ---------------------------------------------------------------------
  // Each step leaves its own output unchanged

  lemma {:induction false} StripSpecialKeepsKept(s: string)
    requires AllKept(s)
    ensures StripSpecial(s) == s
  {
    if s != [] {
      StripSpecialKeepsKept(s[1..]);
    }
  }

  lemma UppercaseKeepsUpper(s: string)
    requires NoLower(s)
    ensures Uppercase(s) == s
  {
    var u := Uppercase(s);
    forall i | 0 <= i < |s| ensures u[i] == s[i] {
      assert !IsLower(s[i]);
    }
  }

  lemma {:induction false} CollapseKeepsCollapsed(s: string)
    requires NoAdjacentSpace(s) && OnlyPlainSpace(s)
    ensures Collapse(s) == s
    decreases |s|
  {
    if s != [] {
      CollapseKeepsCollapsed(s[1..]);
      if IsSpace(s[0]) {
        assert TrimStart(s[1..]) == s[1..];
      }
    }
  }

  lemma TrimKeepsTrimmed(s: string)
    requires NoEdgeSpace(s)
    ensures Trim(s) == s
  {
  }

  /** Stripping removes exactly the characters outside `[a-zA-Z0-9\s]`: a
      character is in the result if and only if it is in the input and kept. */
  lemma {:induction false} StripSpecialMembers(s: string, c: char)
    ensures c in StripSpecial(s) <==> c in s && IsKept(c)
  {
    if s != [] {
      StripSpecialMembers(s[1..], c);
      assert s == [s[0]] + s[1..];
    }
  }

  lemma {:induction false} NonSpaceAppend(a: string, b: string)
    ensures NonSpace(a + b) == NonSpace(a) + NonSpace(b)
  {
    if a == [] {
      assert a + b == b;
    } else {
      NonSpaceAppend(a[1..], b);
      var h := if IsSpace(a[0]) then [] else [a[0]];
      assert (a + b)[0] == a[0] && (a + b)[1..] == a[1..] + b;
      assert NonSpace(a + b) == h + NonSpace(a[1..] + b);
      assert h + (NonSpace(a[1..]) + NonSpace(b)) == (h + NonSpace(a[1..])) + NonSpace(b);
    }
  }

  lemma {:induction false} TrimStartNonSpace(s: string)
    ensures NonSpace(TrimStart(s)) == NonSpace(s)
  {
    if s != [] && IsSpace(s[0]) {
      TrimStartNonSpace(s[1..]);
    }
  }

  /** Collapsing changes whitespace only: the other characters come out
      unchanged and in their order. */
  lemma {:induction false} CollapseKeepsText(s: string)
    ensures NonSpace(Collapse(s)) == NonSpace(s)
    decreases |s|
  {
    if s != [] {
      if IsSpace(s[0]) {
        CollapseKeepsText(TrimStart(s[1..]));
        TrimStartNonSpace(s[1..]);
        NonSpaceAppend([' '], Collapse(TrimStart(s[1..])));
      } else {
        CollapseKeepsText(s[1..]);
        NonSpaceAppend([s[0]], Collapse(s[1..]));
      }
    }
  }

  /** Stripping works character by character: it distributes over a split
      of its input, so the kept characters keep their order and number. */
  lemma {:induction false} StripSpecialAppend(a: string, b: string)
    ensures StripSpecial(a + b) == StripSpecial(a) + StripSpecial(b)
  {
    if a == [] {
      assert a + b == b;
    } else {
      StripSpecialAppend(a[1..], b);
      var h := if IsKept(a[0]) then [a[0]] else [];
      assert (a + b)[0] == a[0] && (a + b)[1..] == a[1..] + b;
      assert StripSpecial(a + b) == h + StripSpecial(a[1..] + b);
      AppendAssoc(h, StripSpecial(a[1..]), StripSpecial(b));
    }
  }

  /** Uppercasing works character by character: it distributes over a split
      of its input. */
  lemma UppercaseAppend(a: string, b: string)
    ensures Uppercase(a + b) == Uppercase(a) + Uppercase(b)
  {
    var l, r := Uppercase(a + b), Uppercase(a) + Uppercase(b);
    forall i | 0 <= i < |l| ensures l[i] == r[i] {
      if i < |a| {
        assert (a + b)[i] == a[i];
      } else {
        assert (a + b)[i] == b[i - |a|];
      }
    }
  }

  /** One character is kept exactly when it matches `[a-zA-Z0-9\s]`. */
  lemma StripSpecialChar(c: char)
    ensures StripSpecial([c]) == if IsKept(c) then [c] else []
  {
    assert [c][1..] == [];
  }

  /** A run of whitespace in front of a text that starts with another
      character is removed by `TrimStart`, and only that run. */
  lemma {:induction false} TrimStartRun(w: string, b: string)
    requires forall i :: 0 <= i < |w| ==> IsSpace(w[i])
    requires b == [] || !IsSpace(b[0])
    ensures TrimStart(w + b) == b
  {
    if w == [] {
      assert w + b == b;
    } else {
      assert (w + b)[1..] == w[1..] + b;
      TrimStartRun(w[1..], b);
    }
  }

  /** `TrimStart` stops inside a text that ends with a non-space character,
      so whatever follows is untouched. */
  lemma {:induction false} TrimStartAppend(a: string, b: string)
    requires a != [] && !IsSpace(a[|a| - 1])
    ensures TrimStart(a + b) == TrimStart(a) + b
  {
    if IsSpace(a[0]) {
      assert (a + b)[0] == a[0] && (a + b)[1..] == a[1..] + b;
      TrimStartAppend(a[1..], b);
    }
  }

  lemma AppendAssoc(x: string, y: string, z: string)
    ensures x + (y + z) == x + y + z
  {
  }

  /** A leading run of whitespace becomes one space. */
  lemma CollapseRun(w: string, b: string)
    requires w != [] && forall i :: 0 <= i < |w| ==> IsSpace(w[i])
    requires b == [] || !IsSpace(b[0])
    ensures Collapse(w + b) == [' '] + Collapse(b)
  {
    var x, rest := w + b, w[1..];
    assert IsSpace(x[0]) by {
      assert x[0] == w[0];
    }
    assert TrimStart(x[1..]) == b by {
      assert x[1..] == rest + b;
      forall i | 0 <= i < |rest| ensures IsSpace(rest[i]) {
        assert rest[i] == w[i + 1];
      }
      TrimStartRun(rest, b);
    }
  }

  /** An inner run of whitespace becomes exactly one space, and the text on
      either side is collapsed on its own. */
  lemma {:induction false} CollapseSplit(a: string, w: string, b: string)
    requires a == [] || !IsSpace(a[|a| - 1])
    requires w != [] && forall i :: 0 <= i < |w| ==> IsSpace(w[i])
    requires b == [] || !IsSpace(b[0])
    ensures Collapse(a + w + b) == Collapse(a) + [' '] + Collapse(b)
    decreases |a|
  {
    if a == [] {
      assert a + w + b == w + b;
      CollapseRun(w, b);
    } else if IsSpace(a[0]) {
      var a' := TrimStart(a[1..]);
      assert |a| >= 2;
      assert a' != [] && a'[|a'| - 1] == a[|a| - 1];
      CollapseSplit(a', w, b);
      CollapseSplitSpace(a, w, b);
    } else {
      var a' := a[1..];
      assert a' == [] || a'[|a'| - 1] == a[|a| - 1];
      CollapseSplit(a', w, b);
      CollapseSplitText(a, w, b);
    }
  }

  /** The step of `CollapseSplit` when `a` starts with whitespace. */
  lemma CollapseSplitSpace(a: string, w: string, b: string)
    requires a != [] && IsSpace(a[0]) && !IsSpace(a[|a| - 1])
    requires Collapse(TrimStart(a[1..]) + w + b) == Collapse(TrimStart(a[1..])) + [' '] + Collapse(b)
    ensures Collapse(a + w + b) == Collapse(a) + [' '] + Collapse(b)
  {
    var a' := TrimStart(a[1..]);
    CollapseLeadingSpace(a, w + b);
    AppendAssoc(a', w, b);
    AppendAssoc(a, w, b);
    var ca, cb := Collapse(a'), Collapse(b);
    assert Collapse(a + w + b) == [' '] + (ca + [' '] + cb);
    AppendAssoc([' '], ca + [' '], cb);
    AppendAssoc([' '], ca, [' ']);
  }

  /** The step of `CollapseSplit` when `a` starts with another character. */
  lemma CollapseSplitText(a: string, w: string, b: string)
    requires a != [] && !IsSpace(a[0])
    requires Collapse(a[1..] + w + b) == Collapse(a[1..]) + [' '] + Collapse(b)
    ensures Collapse(a + w + b) == Collapse(a) + [' '] + Collapse(b)
  {
    var a' := a[1..];
    CollapseLeadingText(a, w + b);
    AppendAssoc(a', w, b);
    AppendAssoc(a, w, b);
    var ca, cb := Collapse(a'), Collapse(b);
    assert Collapse(a) == [a[0]] + ca;
    assert Collapse(a + w + b) == [a[0]] + (ca + [' '] + cb);
    AppendAssoc([a[0]], ca + [' '], cb);
    AppendAssoc([a[0]], ca, [' ']);
  }

  /** One unfolding of `Collapse` on `a + t` when `a` starts with whitespace
      and ends with another character. */
  lemma CollapseLeadingSpace(a: string, t: string)
    requires a != [] && IsSpace(a[0]) && !IsSpace(a[|a| - 1])
    ensures Collapse(a + t) == [' '] + Collapse(TrimStart(a[1..]) + t)
    ensures Collapse(a) == [' '] + Collapse(TrimStart(a[1..]))
  {
    assert (a + t)[0] == a[0] && (a + t)[1..] == a[1..] + t;
    TrimStartAppend(a[1..], t);
  }

  /** One unfolding of `Collapse` on `a + t` when `a` starts with a character
      other than whitespace. */
  lemma CollapseLeadingText(a: string, t: string)
    requires a != [] && !IsSpace(a[0])
    ensures Collapse(a + t) == [a[0]] + Collapse(a[1..] + t)
  {
    assert (a + t)[0] == a[0] && (a + t)[1..] == a[1..] + t;
  }

  lemma {:induction false} TrimEndNonSpace(s: string)
    ensures NonSpace(TrimEnd(s)) == NonSpace(s)
    decreases |s|
  {
    if s != [] && IsSpace(s[|s| - 1]) {
      var p := s[..|s| - 1];
      TrimEndNonSpace(p);
      assert s == p + [s[|s| - 1]];
      NonSpaceAppend(p, [s[|s| - 1]]);
      assert NonSpace([s[|s| - 1]]) == [] by {
        assert [s[|s| - 1]][1..] == [];
      }
    }
  }

  /** Trimming removes whitespace only. */
  lemma TrimNonSpace(s: string)
    ensures NonSpace(Trim(s)) == NonSpace(s)
  {
    TrimStartNonSpace(s);
    TrimEndNonSpace(TrimStart(s));
  }

  /** Stripping never removes whitespace, so it commutes with dropping it. */
  lemma {:induction false} NonSpaceStripSpecial(s: string)
    ensures NonSpace(StripSpecial(s)) == StripSpecial(NonSpace(s))
  {
    if s != [] {
      NonSpaceStripSpecial(s[1..]);
      var h := if IsKept(s[0]) then [s[0]] else [];
      var g := if IsSpace(s[0]) then [] else [s[0]];
      NonSpaceAppend(h, StripSpecial(s[1..]));
      StripSpecialAppend(g, NonSpace(s[1..]));
      assert h != [] ==> h[1..] == [];
      assert g != [] ==> g[1..] == [];
    }
  }

  /** Uppercasing maps whitespace to itself and nothing else to whitespace,
      so it commutes with dropping whitespace. */
  lemma {:induction false} NonSpaceUppercase(s: string)
    ensures NonSpace(Uppercase(s)) == Uppercase(NonSpace(s))
  {
    if s != [] {
      NonSpaceUppercase(s[1..]);
      var u := Uppercase(s);
      assert u[0] == UpperChar(s[0]) && u[1..] == Uppercase(s[1..]);
      if !IsSpace(s[0]) {
        var n := NonSpace(s);
        assert n[0] == s[0] && n[1..] == NonSpace(s[1..]);
      }
    }
  }

  /** What `sanitizeText` keeps of a text: its characters other than
      whitespace, stripped and uppercased as the options say.  Collapsing
      and trimming only change whitespace. */
  function ContentOf(s: string, o: SanitizeOpts): string {
    var t := NonSpace(s);
    var stripped := if On(o.removeSpecialChars) then StripSpecial(t) else t;
    if On(o.uppercase) then Uppercase(stripped) else stripped
  }

  /** The result of `sanitizeText` keeps the text of its input: the
      characters other than whitespace are the input's, stripped and
      uppercased as the options in force say. */
  lemma SanitizeTextContent(text: Option<string>, opts: Option<SanitizeOpts>)
    ensures SanitizeText(text, opts).Some? ==>
      NonSpace(SanitizeText(text, opts).value) == ContentOf(text.value, InForce(opts))
  {
    if text.Some? && text.value != [] {
      TrimNonSpace(Steps(text.value, InForce(opts)));
    }
  }

  /** Two spaces between words become one. */
  lemma CollapseExample()
    ensures Collapse("a  b") == "a b"
  {
    assert "a" + "  " + "b" == "a  b";
    CollapseSplit("a", "  ", "b");
    assert Collapse("a") == "a";
    assert Collapse("b") == "b";
    assert Collapse("a") + [' '] + Collapse("b") == "a b";
  }

  /** The steps run in a fixed order: special characters are stripped before
      whitespace is collapsed, so the spaces a removed character separated
      become one. */
  lemma StepsOrderExample()
    ensures Steps("a ! b", SanitizeOpts(Some(true), Some(true), None)) == "a b"
  {
    assert StripSpecial("b") == "b";
    assert StripSpecial(" b") == " b";
    assert StripSpecial("! b") == " b";
    assert StripSpecial(" ! b") == "  b";
    assert StripSpecial("a ! b") == "a  b";
    CollapseExample();
  }

  /** Running `sanitizeText` again, with the same options, on a non-empty
      result leaves it unchanged. */
  lemma SanitizeTextIdempotent(text: Option<string>, opts: Option<SanitizeOpts>)
    ensures SanitizeText(text, opts).Some? && SanitizeText(text, opts).value != [] ==>
              SanitizeText(SanitizeText(text, opts), opts) == SanitizeText(text, opts)
  {
    if SanitizeText(text, opts).None? || SanitizeText(text, opts).value == [] {
      return;
    }
    var y := SanitizeText(text, opts).value;
    var o := InForce(opts);
    var stripped := if On(o.removeSpecialChars) then StripSpecial(y) else y;
    if On(o.removeSpecialChars) {
      StripSpecialKeepsKept(y);
    }
    assert stripped == y;
    var collapsed := if On(o.removeWhitespace) then Collapse(stripped) else stripped;
    if On(o.removeWhitespace) {
      CollapseKeepsCollapsed(y);
    }
    assert collapsed == y;
    var upper := if On(o.uppercase) then Uppercase(collapsed) else collapsed;
    if On(o.uppercase) {
      UppercaseKeepsUpper(y);
    }
    assert upper == y;
    TrimKeepsTrimmed(y);
  }

  /** A supplied options object with no flag set does nothing but trim: the
      defaults of the parameter do not apply to its missing members. */
  lemma SuppliedOptsOnlyTrim(text: string)
    requires text != []
    ensures SanitizeText(Some(text), Some(SanitizeOpts(None, None, None))) == Some(Trim(text))
  {
  }

  /** With no options object, letters are uppercased and punctuation removed. */
  lemma DefaultExample()
    ensures SanitizeText(Some("a,b "), None) == Some("AB")
  {
    DefaultStepsExample();
    TrimExample();
  }

  /** All three flags on: punctuation goes, the single spaces between words
      stay, and letters are uppercased. */
  lemma AllFlagsExample()
    ensures SanitizeText(Some("Hello, World! 123"), Some(SanitizeOpts(Some(true), Some(true), Some(true))))
         == Some("HELLO WORLD 123")
  {
    AllFlagsStepsExample();
    AllFlagsTrimExample();
  }

  lemma AllFlagsTrimExample()
    ensures Trim("HELLO WORLD 123") == "HELLO WORLD 123"
  {
    TrimKeepsTrimmed("HELLO WORLD 123");
  }

  lemma AllFlagsStepsExample()
    ensures Steps("Hello, World! 123", SanitizeOpts(Some(true), Some(true), Some(true))) == "HELLO WORLD 123"
  {
    AllFlagsStripExample();
    AllFlagsCollapseExample();
    AllFlagsUppercaseExample();
  }

  lemma AllFlagsStripExample()
    ensures StripSpecial("Hello, World! 123") == "Hello World 123"
  {
    assert "Hello" + [','] + " World" + ['!'] + " 123" == "Hello, World! 123";
    StripTwoOthers("Hello", ',', " World", '!', " 123");
    assert "Hello" + " World" + " 123" == "Hello World 123";
  }

  lemma AllFlagsCollapseExample()
    ensures Collapse("Hello World 123") == "Hello World 123"
  {
    assert "Hello" + " " + "World" + " " + "123" == "Hello World 123";
    CollapseWords("Hello", "World", "123");
  }

  lemma AllFlagsUppercaseExample()
    ensures Uppercase("Hello World 123") == "HELLO WORLD 123"
  {
    assert "Hello" + " World" + " 123" == "Hello World 123";
    UppercaseThree("Hello", " World", " 123");
    AllFlagsUppercaseWords();
    assert "HELLO" + " WORLD" + " 123" == "HELLO WORLD 123";
  }

  lemma AllFlagsUppercaseWords()
    ensures Uppercase("Hello") == "HELLO"
    ensures Uppercase(" World") == " WORLD"
    ensures Uppercase(" 123") == " 123"
  {
    UppercaseKeepsUpper(" 123");
  }

  lemma UppercaseThree(a: string, b: string, c: string)
    ensures Uppercase(a + b + c) == Uppercase(a) + Uppercase(b) + Uppercase(c)
  {
    UppercaseAppend(a, b);
    UppercaseAppend(a + b, c);
  }

  /** Stripping two special characters out of kept text joins the pieces
      around them. */
  lemma StripTwoOthers(a: string, x: char, c: string, y: char, e: string)
    requires AllKept(a) && AllKept(c) && AllKept(e) && !IsKept(x) && !IsKept(y)
    ensures StripSpecial(a + [x] + c + [y] + e) == a + c + e
  {
    StripSpecialKeepsKept(a);
    StripSpecialKeepsKept(c);
    StripSpecialKeepsKept(e);
    StripSpecialChar(x);
    StripSpecialChar(y);
    StripSpecialAppend(a, [x]);
    StripSpecialAppend(a + [x], c);
    StripSpecialAppend(a + [x] + c, [y]);
    StripSpecialAppend(a + [x] + c + [y], e);
    assert a + [] == a;
    assert a + c + [] == a + c;
  }

  /** Three words separated by single spaces are already collapsed. */
  lemma CollapseWords(a: string, b: string, c: string)
    requires a != [] && b != [] && c != []
    requires forall i :: 0 <= i < |a| ==> !IsSpace(a[i])
    requires forall i :: 0 <= i < |b| ==> !IsSpace(b[i])
    requires forall i :: 0 <= i < |c| ==> !IsSpace(c[i])
    ensures Collapse(a + " " + b + " " + c) == a + " " + b + " " + c
  {
    CollapseKeepsCollapsed(a);
    CollapseKeepsCollapsed(b);
    CollapseKeepsCollapsed(c);
    var bc := b + " " + c;
    CollapseSplit(b, " ", c);
    assert Collapse(bc) == bc;
    assert bc[0] == b[0];
    CollapseSplit(a, " ", bc);
    var x := a + " ";
    AppendAssoc(x, b + " ", c);
    AppendAssoc(x, b, " ");
  }

  /** `trim()` drops the trailing space. */
  lemma TrimExample()
    ensures Trim("AB ") == "AB"
  {
    assert TrimStart("AB ") == "AB ";
    assert TrimEnd("AB ") == "AB";
  }

  lemma DefaultStepsExample()
    ensures Steps("a,b ", DefaultSanitizeOpts) == "AB "
  {
    assert StripSpecial(" ") == " ";
    assert StripSpecial("b ") == "b ";
    assert StripSpecial(",b ") == "b ";
    assert StripSpecial("a,b ") == "ab ";
    assert Uppercase(" ") == " ";
    assert Uppercase("b ") == "B ";
    assert Uppercase("ab ") == "AB ";
  }

  /** The same text with a supplied but empty options object keeps its case
      and punctuation. */
  lemma SuppliedEmptyOptsExample()
    ensures SanitizeText(Some("a,b "), Some(SanitizeOpts(None, None, None))) == Some("a,b")
  {
    assert Steps("a,b ", SanitizeOpts(None, None, None)) == "a,b ";
    assert TrimStart("a,b ") == "a,b ";
    assert TrimEnd("a,b ") == "a,b";
  }

  // ---------------------------------------------------------------------
  // getValueFromField and getArrayFromField

  /** The `opts` of the two accessors.  `sanitizeOpts` is accepted but never
      read. */
  datatype AccessOpts = AccessOpts(sanitize: bool, sanitizeOpts: Option<SanitizeOpts>)

  predicate Sanitizing(opts: Option<AccessOpts>) { opts.Some? && opts.value.sanitize }

  /** `fields.find(field => field.number === n)`, as the index of the match. */
  function FindField(fields: seq<FormCustomField>, n: int): (r: Option<nat>)
    ensures r.None? <==> forall i :: 0 <= i < |fields| ==> fields[i].number != n
    ensures r.Some? ==> r.value < |fields| && fields[r.value].number == n
    ensures r.Some? ==> forall j :: 0 <= j < r.value ==> fields[j].number != n
  {
    if fields == [] then None
    else if fields[0].number == n then Some(0)
    else match FindField(fields[1..], n)
      case None => None
      case Some(i) => Some(i + 1)
  }

  /** The value as the accessors return it: sanitized with the default
      options when asked to, whatever `sanitizeOpts` says. */
  function AccessedValue(value: string, opts: Option<AccessOpts>): Option<string> {
    if Sanitizing(opts) then SanitizeText(Some(value), None) else Some(value)
  }

  /** `getValueFromField(form, fieldNumber, opts)`. */
  function GetValueFromField(form: FormItem, fieldNumber: int, opts: Option<AccessOpts>): (r: Option<string>)
    ensures r.Some? ==> FindField(form.fields, fieldNumber).Some?
    ensures !Sanitizing(opts) ==> (r.Some? <==> FindField(form.fields, fieldNumber).Some?)
  {
    match FindField(form.fields, fieldNumber)
    case None => None
    case Some(i) => AccessedValue(form.fields[i].value, opts)
  }

  /** The value of the first field with the requested number is returned,
      and nothing when no field has it. */
  lemma GetValueFirstMatch(form: FormItem, fieldNumber: int, opts: Option<AccessOpts>, i: nat)
    requires i < |form.fields| && form.fields[i].number == fieldNumber
    requires forall j :: 0 <= j < i ==> form.fields[j].number != fieldNumber
    ensures GetValueFromField(form, fieldNumber, opts) == AccessedValue(form.fields[i].value, opts)
  {
    var found := FindField(form.fields, fieldNumber);
    assert found.Some? by {
      assert form.fields[i].number == fieldNumber;
    }
    assert found.value == i;
  }

  lemma GetValueNoMatch(form: FormItem, fieldNumber: int, opts: Option<AccessOpts>)
    requires forall j :: 0 <= j < |form.fields| ==> form.fields[j].number != fieldNumber
    ensures GetValueFromField(form, fieldNumber, opts) == None
  {
  }

  /** Without sanitizing, a found field's value comes back as it is, even
      when it is empty; sanitizing turns an empty value into nothing. */
  lemma GetValueEmptyValue(form: FormItem, fieldNumber: int, s: Option<SanitizeOpts>)
    requires FindField(form.fields, fieldNumber).Some?
    requires form.fields[FindField(form.fields, fieldNumber).value].value == []
    ensures GetValueFromField(form, fieldNumber, None) == Some([])
    ensures GetValueFromField(form, fieldNumber, Some(AccessOpts(true, s))) == None
  {
  }

  /** `sanitizeOpts` has no effect on the result. */
  lemma GetValueIgnoresSanitizeOpts(form: FormItem, fieldNumber: int, sanitize: bool,
                                    a: Option<SanitizeOpts>, b: Option<SanitizeOpts>)
    ensures GetValueFromField(form, fieldNumber, Some(AccessOpts(sanitize, a)))
         == GetValueFromField(form, fieldNumber, Some(AccessOpts(sanitize, b)))
  {
  }

  /** `fields.filter(field => fieldNumbers.includes(field.number))`. */
  function SelectFields(fields: seq<FormCustomField>, fieldNumbers: seq<int>): (r: seq<FormCustomField>)
    ensures |r| <= |fields|
  {
    if fields == [] then []
    else (if fields[0].number in fieldNumbers then [fields[0]] else [])
         + SelectFields(fields[1..], fieldNumbers)
  }

  /** A field is selected if and only if it is one of the form's fields and
      its number is among the requested ones. */
  lemma {:induction false} SelectFieldsMembers(fields: seq<FormCustomField>, fieldNumbers: seq<int>,
                                               f: FormCustomField)
    ensures f in SelectFields(fields, fieldNumbers) <==> f in fields && f.number in fieldNumbers
  {
    if fields != [] {
      SelectFieldsMembers(fields[1..], fieldNumbers, f);
      assert fields == [fields[0]] + fields[1..];
    }
  }

  /** `getArrayFromField(form, fieldNumbers, opts)`.  An entry is `None`
      where sanitizing an empty value gives `undefined`. */
  function GetArrayFromField(form: FormItem, fieldNumbers: seq<int>, opts: Option<AccessOpts>)
    : (r: seq<Option<string>>)
    ensures |r| == |SelectFields(form.fields, fieldNumbers)|
    ensures forall i :: 0 <= i < |r| ==>
              r[i] == AccessedValue(SelectFields(form.fields, fieldNumbers)[i].value, opts)
  {
    var selected := SelectFields(form.fields, fieldNumbers);
    seq(|selected|, i requires 0 <= i < |selected| => AccessedValue(selected[i].value, opts))
  }

  /** The selection keeps the form's field order: it distributes over a
      split of the fields. */
  lemma {:induction false} SelectFieldsAppend(a: seq<FormCustomField>, b: seq<FormCustomField>, ns: seq<int>)
    ensures SelectFields(a + b, ns) == SelectFields(a, ns) + SelectFields(b, ns)
  {
    if a == [] {
      assert a + b == b;
    } else {
      var h := if a[0].number in ns then [a[0]] else [];
      var ab := a + b;
      assert ab[0] == a[0] && ab[1..] == a[1..] + b;
      assert SelectFields(ab, ns) == h + SelectFields(a[1..] + b, ns);
      SelectFieldsAppend(a[1..], b, ns);
      assert SelectFields(a, ns) == h + SelectFields(a[1..], ns);
      assert h + (SelectFields(a[1..], ns) + SelectFields(b, ns))
          == (h + SelectFields(a[1..], ns)) + SelectFields(b, ns);
    }
  }

  /** Only the set of requested numbers matters: repeating a number, or
      listing the numbers in another order, changes nothing. */
  lemma {:induction false} SelectFieldsSameNumbers(fields: seq<FormCustomField>, ns: seq<int>, ms: seq<int>)
    requires forall n :: n in ns <==> n in ms
    ensures SelectFields(fields, ns) == SelectFields(fields, ms)
  {
    if fields != [] {
      SelectFieldsSameNumbers(fields[1..], ns, ms);
    }
  }

  /** Requesting every number present returns every field, in order. */
  lemma {:induction false} SelectFieldsAll(fields: seq<FormCustomField>, ns: seq<int>)
    requires forall i :: 0 <= i < |fields| ==> fields[i].number in ns
    ensures SelectFields(fields, ns) == fields
  {
    if fields != [] {
      SelectFieldsAll(fields[1..], ns);
      assert fields == [fields[0]] + fields[1..];
    }
  }

  /** Asking for one number whose field occurs exactly once gives exactly the
      value `getValueFromField` gives. */
  lemma GetArrayOfOneNumber(form: FormItem, fieldNumber: int, opts: Option<AccessOpts>, i: nat)
    requires i < |form.fields| && form.fields[i].number == fieldNumber
    requires forall j :: 0 <= j < |form.fields| && j != i ==> form.fields[j].number != fieldNumber
    ensures GetArrayFromField(form, [fieldNumber], opts) == [GetValueFromField(form, fieldNumber, opts)]
  {
    SelectFieldsOnly(form.fields, fieldNumber, i);
    GetValueFirstMatch(form, fieldNumber, opts, i);
  }

  /** When exactly one field carries the number, selecting that number gives
      that field alone. */
  lemma SelectFieldsOnly(fs: seq<FormCustomField>, n: int, i: nat)
    requires i < |fs| && fs[i].number == n
    requires forall j :: 0 <= j < |fs| && j != i ==> fs[j].number != n
    ensures SelectFields(fs, [n]) == [fs[i]]
  {
    var before, after := fs[..i], fs[i + 1..];
    assert fs == before + [fs[i]] + after;
    assert forall j :: 0 <= j < |before| ==> before[j].number != n by {
      forall j | 0 <= j < |before| ensures before[j].number != n {
        assert before[j] == fs[j];
      }
    }
    assert forall j :: 0 <= j < |after| ==> after[j].number != n by {
      forall j | 0 <= j < |after| ensures after[j].number != n {
        assert after[j] == fs[i + 1 + j];
      }
    }
    SelectFieldsNone(before, n);
    SelectFieldsNone(after, n);
    SelectFieldsAround(before, fs[i], after, n);
  }

  /** A field between fields from which its number selects nothing is all
      that selecting its number gives. */
  lemma SelectFieldsAround(before: seq<FormCustomField>, f: FormCustomField,
                           after: seq<FormCustomField>, n: int)
    requires f.number == n
    requires SelectFields(before, [n]) == [] && SelectFields(after, [n]) == []
    ensures SelectFields(before + [f] + after, [n]) == [f]
  {
    SelectFieldsAppend(before + [f], after, [n]);
    SelectFieldsAppend(before, [f], [n]);
    assert [f][1..] == [];
  }

  lemma SelectFieldsNone(fields: seq<FormCustomField>, n: int)
    requires forall j :: 0 <= j < |fields| ==> fields[j].number != n
    ensures SelectFields(fields, [n]) == []
  {
    if SelectFields(fields, [n]) != [] {
      SelectFieldsMembers(fields, [n], SelectFields(fields, [n])[0]);
    }
  }

  /** `sanitizeOpts` has no effect on the result. */
  lemma GetArrayIgnoresSanitizeOpts(form: FormItem, fieldNumbers: seq<int>, sanitize: bool,
                                    a: Option<SanitizeOpts>, b: Option<SanitizeOpts>)
    ensures GetArrayFromField(form, fieldNumbers, Some(AccessOpts(sanitize, a)))
         == GetArrayFromField(form, fieldNumbers, Some(AccessOpts(sanitize, b)))
  {
  }
}
