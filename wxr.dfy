/** `dcg_wxr_cdata`: a string wrapped as an XML CDATA section (section 2.7 of XML 1.0,
    "CDATA Sections"). A section ends at the first `]]>`, so every `]]>` of the text is
    split across two sections as `]]` + `]]>` + `<![CDATA[` + `>`. */
module Wxr {
  import opened Common
  import opened Php

  const Open: string := "<![CDATA["
  const Close: string := "]]>"
  /** What `str_replace` puts in place of each `]]>`. */
  const Split: string := "]]]]><![CDATA[>"

  /** `dcg_wxr_cdata(s)` for a string that is already UTF-8. */
  function Cdata(s: string): (r: string)
    ensures |r| >= |Open| + |Close|
    ensures r[..|Open|] == Open && r[|r| - |Close|..] == Close
  {
    Open + Replace(s, Close, Split) + Close
  }

  /** Text without `]]>` is wrapped as it is. */
  lemma CdataPlain(s: string)
    requires !Contains(s, Close)
    ensures Cdata(s) == Open + s + Close
  {
    ReplaceAbsent(s, Close, Split);
  }

  /** The contents of a run of CDATA sections that fills `t` exactly, in order; None when
      `t` is not such a run. Each content ends where the first `]]>` after its `<![CDATA[`
      begins, as an XML reader ends the section. */
  function Sections(t: string): Option<seq<string>>
    decreases |t|
  {
    if |t| < |Open| || t[..|Open|] != Open then None
    else
      var rest := t[|Open|..];
      var k := IndexOf(rest, Close);
      if k == |rest| then None
      else if k + |Close| == |rest| then Some([rest[..k]])
      else
        Prepend(rest[..k], Sections(rest[k + |Close|..]))
  }

  /** One more section in front of a run, when the run was read. */
  function Prepend(x: string, o: Option<seq<string>>): Option<seq<string>>
  {
    match o
    case None => None
    case Some(more) => Some([x] + more)
  }

  /** No section's content holds `]]>`. */
  lemma {:induction false} SectionsCloseFree(t: string)
    ensures Sections(t).Some? ==> forall i :: 0 <= i < |Sections(t).value| ==> !Contains(Sections(t).value[i], Close)
    decreases |t|
  {
    if |t| >= |Open| && t[..|Open|] == Open {
      var rest := t[|Open|..];
      var k := IndexOf(rest, Close);
      if k < |rest| {
        IndexOfSpec(rest, Close);
        PrefixCloseFree(rest, k);
        if k + |Close| < |rest| {
          SectionsCloseFree(rest[k + |Close|..]);
        }
      }
    }
  }

  function Concat(xs: seq<string>): string
  {
    if xs == [] then [] else xs[0] + Concat(xs[1..])
  }

  // ---------------------------------------------------------------------------------------
  // Helpers on occurrences of `]]>`

  lemma CloseChars(x: string, j: int)
    ensures At(x, Close, j) <==> 0 <= j && j + 3 <= |x| && x[j] == ']' && x[j + 1] == ']' && x[j + 2] == '>'
  {
    if 0 <= j && j + 3 <= |x| && x[j] == ']' && x[j + 1] == ']' && x[j + 2] == '>' {
      assert x[j..j + 3] == Close;
    }
  }

  /** The text before the first `]]>` holds no `]]>`. */
  lemma PrefixCloseFree(t: string, k: nat)
    requires k <= |t|
    requires forall j :: 0 <= j < k ==> !At(t, Close, j)
    ensures !Contains(t[..k], Close)
  {
    forall j | 0 <= j <= k ensures !At(t[..k], Close, j) {
      CloseChars(t[..k], j);
      CloseChars(t, j);
    }
  }

  /** `rest` = `lead` + `body` + `tail`, where `body` holds no `]]>`, `lead` is empty or `>`
      and `tail` starts with `]]`: no `]]>` begins before `tail`. */
  lemma NoCloseBefore(lead: string, body: string, tail: string)
    requires lead == "" || lead == ">"
    requires !Contains(body, Close)
    requires |tail| >= 2 && tail[0] == ']' && tail[1] == ']'
    ensures forall j :: 0 <= j < |lead + body| ==> !At(lead + body + tail, Close, j)
  {
    var rest := lead + body + tail;
    forall j | 0 <= j < |lead + body| ensures !At(rest, Close, j) {
      CloseChars(rest, j);
      if j + 2 < |lead + body| && j >= |lead| {
        CloseChars(body, j - |lead|);
        assert !At(body, Close, j - |lead|);
      }
    }
  }

  // ---------------------------------------------------------------------------------------
  // Round trip

  /** The section contents expected from `<![CDATA[` + lead + Replace(s) + `]]>`. */
  ghost function Pieces(lead: string, s: string): seq<string>
    decreases |s|
  {
    var k := IndexOf(s, Close);
    if k == |s| then [lead + s]
    else [lead + s[..k] + "]]"] + Pieces(">", s[k + 3..])
  }

  lemma ConcatCons(x: string, xs: seq<string>)
    ensures Concat([x] + xs) == x + Concat(xs)
  {
    assert ([x] + xs)[1..] == xs;
  }

  lemma SplitAtClose(s: string, k: nat)
    requires At(s, Close, k)
    ensures s == s[..k] + "]]" + (">" + s[k + 3..])
  {
    assert s[k..k + 3] == "]]>";
    assert s == s[..k] + s[k..k + 3] + s[k + 3..];
  }

  lemma {:induction false} PiecesConcat(lead: string, s: string)
    ensures Concat(Pieces(lead, s)) == lead + s
    decreases |s|
  {
    var k := IndexOf(s, Close);
    if k == |s| {
      ConcatCons(lead + s, []);
    } else {
      var b := s[k + 3..];
      IndexOfSpec(s, Close);
      PiecesConcat(">", b);
      ConcatCons(lead + s[..k] + "]]", Pieces(">", b));
      SplitAtClose(s, k);
    }
  }

  lemma SplitParts()
    ensures Split == "]]" + Close + Open + ">"
  {
  }

  /** One section `x` followed by `after`, when no `]]>` begins inside `x`. */
  lemma SectionsCons(x: string, after: string)
    requires forall j :: 0 <= j < |x| ==> !At(x + Close + after, Close, j)
    ensures Sections(Open + x + Close + after) ==
      if after == [] then Some([x])
      else Prepend(x, Sections(after))
  {
    var t := Open + x + Close + after;
    var rest := x + Close + after;
    assert t == Open + rest;
    assert t[..|Open|] == Open && t[|Open|..] == rest;
    assert At(rest, Close, |x|) by { CloseChars(rest, |x|); }
    IndexOfSpec(rest, Close);
    assert IndexOf(rest, Close) == |x|;
    assert rest[..|x|] == x;
    assert rest[|x| + 3..] == after;
  }

  lemma WrappedLast(lead: string, s: string)
    requires lead == "" || lead == ">"
    requires !Contains(s, Close)
    ensures Sections(Open + lead + s + Close) == Some([lead + s])
  {
    NoCloseBefore(lead, s, Close);
    var u := lead + s + Close + [];
    assert u == lead + s + Close;
    assert forall j :: 0 <= j < |lead + s| ==> !At(u, Close, j);
    SectionsCons(lead + s, []);
    assert Open + (lead + s) + Close + [] == Open + lead + s + Close;
  }

  lemma WrappedStep(lead: string, a: string, r: string)
    requires lead == "" || lead == ">"
    requires !Contains(a + "]]", Close)
    ensures Sections(Open + lead + (a + Split + r) + Close) ==
      Prepend(lead + a + "]]", Sections(Open + ">" + r + Close))
  {
    var after := Open + ">" + r + Close;
    var body := a + "]]";
    NoCloseBefore(lead, body, Close + after);
    assert lead + body + (Close + after) == (lead + body) + Close + after;
    SectionsCons(lead + body, after);
    SplitParts();
    Regroup(Open, lead, a, "]]", Close, ">", r);
    assert |after| > 0;
    assert lead + body == lead + a + "]]";
  }

  lemma Regroup(o: string, l: string, a: string, q: string, c: string, g: string, r: string)
    ensures o + l + (a + (q + c + o + g) + r) + c == o + (l + (a + q)) + c + (o + g + r + c)
  {
  }

  lemma {:induction false} SectionsOfWrapped(lead: string, s: string)
    requires lead == "" || lead == ">"
    ensures Sections(Open + lead + Replace(s, Close, Split) + Close) == Some(Pieces(lead, s))
    decreases |s|
  {
    var k := IndexOf(s, Close);
    IndexOfSpec(s, Close);
    if k == |s| {
      ReplaceAbsent(s, Close, Split);
      WrappedLast(lead, s);
    } else {
      SectionsOfWrapped(">", s[k + 3..]);
      WrappedOccurrence(lead, s);
    }
  }

  /** The section up to the first `]]>` of `s`, then the sections of the rest. */
  lemma WrappedOccurrence(lead: string, s: string)
    requires lead == "" || lead == ">"
    requires IndexOf(s, Close) < |s|
    requires var b := s[IndexOf(s, Close) + 3..];
      Sections(Open + ">" + Replace(b, Close, Split) + Close) == Some(Pieces(">", b))
    ensures Sections(Open + lead + Replace(s, Close, Split) + Close) == Some(Pieces(lead, s))
  {
    var k := IndexOf(s, Close);
    var a, b := s[..k], s[k + 3..];
    var r := Replace(b, Close, Split);
    ReplaceAt(s);
    assert Open + lead + Replace(s, Close, Split) + Close == Open + lead + (a + Split + r) + Close;
    WrappedStepAt(lead, s, r);
    PiecesAt(lead, s);
    PrependSome(lead + a + "]]", Pieces(">", b));
  }

  lemma PrependSome(x: string, more: seq<string>)
    ensures Prepend(x, Some(more)) == Some([x] + more)
  {
  }

  lemma PiecesAt(lead: string, s: string)
    requires IndexOf(s, Close) < |s|
    ensures var k := IndexOf(s, Close);
      Pieces(lead, s) == [lead + s[..k] + "]]"] + Pieces(">", s[k + 3..])
  {
  }

  lemma ReplaceAt(s: string)
    requires IndexOf(s, Close) < |s|
    ensures var k := IndexOf(s, Close);
      Replace(s, Close, Split) == s[..k] + Split + Replace(s[k + 3..], Close, Split)
  {
    ReplaceFirst(s, Close, Split);
  }

  lemma WrappedStepAt(lead: string, s: string, r: string)
    requires lead == "" || lead == ">"
    requires IndexOf(s, Close) < |s|
    ensures var k := IndexOf(s, Close);
      Sections(Open + lead + (s[..k] + Split + r) + Close) ==
        Prepend(lead + s[..k] + "]]", Sections(Open + ">" + r + Close))
  {
    HeadCloseFree(s);
    WrappedStep(lead, s[..IndexOf(s, Close)], r);
  }

  /** The text before the first `]]>`, with the `]]` that begins it, holds no `]]>`. */
  lemma HeadCloseFree(s: string)
    requires IndexOf(s, Close) < |s|
    ensures !Contains(s[..IndexOf(s, Close)] + "]]", Close)
  {
    var k := IndexOf(s, Close);
    var a := s[..k];
    IndexOfSpec(s, Close);
    PrefixCloseFree(s, k);
    forall j | 0 <= j <= |a + "]]"| ensures !At(a + "]]", Close, j) {
      CloseChars(a + "]]", j);
      CloseChars(a, j);
    }
  }

  /** Reading the CDATA sections of `Cdata(s)` and joining their contents gives `s` back,
      and no section's content holds `]]>`. */
  lemma CdataRoundTrip(s: string)
    ensures Sections(Cdata(s)).Some?
    ensures Concat(Sections(Cdata(s)).value) == s
    ensures forall i :: 0 <= i < |Sections(Cdata(s)).value| ==> !Contains(Sections(Cdata(s)).value[i], Close)
  {
    assert Cdata(s) == Open + "" + Replace(s, Close, Split) + Close;
    SectionsCloseFree(Cdata(s));
    SectionsOfWrapped("", s);
    PiecesConcat("", s);
  }

  /** Different texts are wrapped differently. */
  lemma CdataInjective(s: string, s': string)
    requires Cdata(s) == Cdata(s')
    ensures s == s'
  {
    CdataRoundTrip(s);
    CdataRoundTrip(s');
  }

  /** Each `]]>` of the input adds 12 characters, and the wrapper adds 12. */
  lemma CdataLength(s: string)
    ensures |Cdata(s)| == |s| + 12 + 12 * Count(s, Close)
  {
    ReplaceLength(s, Close, Split);
  }
}
