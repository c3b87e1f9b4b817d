/** The decision core of the Luxrender adapter's `render`: patch the resolutions in the
    scene file's text, decide whether the project's result page moves to a fresh
    temporary file, pick the renderer executable and compose the shell command. File
    I/O, the preference store, the host's console and the process launch stay outside:
    their inputs are parameters and their effects are fields of the outcome. */
module LuxRender {
  import opened Text
  import opened Pattern

  /** The host's render project: the scene file it renders, its name and its template. */
  datatype Project = Project(pageResult: string, name: string, template: string)

  /** The three render preferences the adapter reads (each empty when unset). */
  datatype Prefs = Prefs(luxRenderPath: string, luxConsolePath: string, luxParameters: string)

  /** What `render` reports on the host's console: an error, or the command it launches
      (logged followed by a newline). */
  datatype Report = MissingExecutable(message: string) | Launched(command: string)

  /** The effect of one `render` call: the patched text, whether it went to the fresh
      temporary file that became the project's result page, the project afterwards,
      and the report. */
  datatype Outcome = Outcome(patched: string, swapped: bool, project: Project, report: Report)

  const XResolution := "integer xresolution"
  const YResolution := "integer yresolution"
  const MissingExecutableText :=
    "Unable to locate renderer executable. Please set the correct path in Edit -> Preferences -> Render"

  /** The declaration a resolution is rewritten to: the quoted key and the value in brackets. */
  function ResolutionValue(key: string, v: int): string
  {
    Quoted(key) + " [" + IntStr(v) + "]"
  }

  /** One resolution patch: when the bare key occurs, every `"key" ... [ ... ]` on a line
      is rewritten to the new value; otherwise the text is kept. */
  function PatchResolution(t: string, key: string, v: int): string
  {
    if Contains(t, key) then SubAll(t, Quoted(key), ResolutionValue(key, v)) else t
  }

  /** The executable preference `external` selects. */
  function Executable(prefs: Prefs, external: bool): string
  {
    if external then prefs.luxRenderPath else prefs.luxConsolePath
  }

  /** The two resolution patches in turn, and whether the y key is still present after
      the x patch: one flag, reassigned by the second presence test, decides both the
      y patch and the move to a temporary file. */
  function Resize(contents: string, width: int, height: int): (r: (string, bool))
    ensures r.1 ==> Contains(contents, YResolution)
    ensures !Contains(contents, XResolution) ==> (r.1 <==> Contains(contents, YResolution))
    ensures !Contains(contents, XResolution) && !Contains(contents, YResolution) ==> r.0 == contents
  {
    var t := PatchResolution(contents, XResolution, width);
    NoResolutionCreated(contents, width);
    (PatchResolution(t, YResolution, height), Contains(t, YResolution))
  }

  /** The launch step: an error when no executable is set, otherwise the shell command,
      whose parameters are followed by a space only when there are any. */
  function Launch(prefix: string, rpath: string, args: string, page: string): (r: Report)
    ensures r.MissingExecutable? <==> rpath == ""
    ensures r.MissingExecutable? ==> r.message == MissingExecutableText
    ensures r.Launched? ==> r.command == prefix + rpath + " " + args + (if args != "" then " " else "") + page
  {
    if rpath == "" then MissingExecutable(MissingExecutableText)
    else Launched(prefix + rpath + " " + (if args != "" then args + " " else args) + page)
  }

  /** render, without its I/O: `contents` is the text of the project's result page and
      `tempPath` the name the temporary file gets. `output` is accepted and unused. */
  function Render(project: Project, contents: string, prefix: string, external: bool, output: string,
                  width: int, height: int, prefs: Prefs, tempPath: string): (o: Outcome)
    ensures (o.patched, o.swapped) == Resize(contents, width, height)
    ensures !Contains(contents, XResolution) && !Contains(contents, YResolution) ==> o.patched == contents
    ensures o.project.name == project.name && o.project.template == project.template
    ensures o.project.pageResult == (if o.swapped then tempPath else project.pageResult)
    ensures o.swapped ==> Contains(contents, YResolution)
    ensures !Contains(contents, XResolution) ==> (o.swapped <==> Contains(contents, YResolution))
    ensures o.report == Launch(prefix, Executable(prefs, external), prefs.luxParameters, o.project.pageResult)
    ensures o.report.MissingExecutable? <==> Executable(prefs, external) == ""
    ensures o.report.MissingExecutable? ==> o.report.message == MissingExecutableText
    ensures o.report.Launched? ==>
              o.report.command == prefix + Executable(prefs, external) + " " + prefs.luxParameters
                                  + (if prefs.luxParameters != "" then " " else "") + o.project.pageResult
  {
    var (t, swapped) := Resize(contents, width, height);
    var page := if swapped then tempPath else project.pageResult;
    Outcome(t, swapped, project.(pageResult := page),
            Launch(prefix, Executable(prefs, external), prefs.luxParameters, page))
  }

  /** The literal facts about the two keys that the proofs below rely on. */
  lemma ResolutionKeyFacts()
    ensures Quoted(XResolution) == "\"integer xresolution\""
    ensures '"' !in XResolution && OneLine(XResolution) && OneLine(YResolution)
    ensures '"' !in YResolution && '[' !in YResolution && ']' !in YResolution
  {
    KeyCharacters();
  }

  /** Neither key holds a quote or a newline, and the y key holds no bracket. */
  lemma KeyCharacters()
    ensures '"' !in XResolution && OneLine(XResolution) && OneLine(YResolution)
    ensures '"' !in YResolution && '[' !in YResolution && ']' !in YResolution
  {
  }

  /** The quoted x key does not hold the y key. */
  lemma QuotedXLacksY()
    ensures !Contains(Quoted(XResolution), YResolution)
  {
    var a := Quoted(XResolution);
    assert |a| == 21 && a[0] == '"' && a[2] == 'n' && a[9] == 'x' by { ResolutionKeyFacts(); }
    assert !Contains(a[3..], YResolution) by { AbsentPattern(a[3..], YResolution); }
    assert !Contains(a[2..], YResolution) by {
      DiffersAt(a[2..], YResolution, 0);
      assert a[2..][1..] == a[3..];
    }
    assert !Contains(a[1..], YResolution) by {
      DiffersAt(a[1..], YResolution, 8);
      assert a[1..][1..] == a[2..];
    }
    DiffersAt(a, YResolution, 0);
  }

  /** The x declaration written back holds no y key, whatever the width. */
  lemma XValueLacksY(width: int)
    ensures !Contains(ResolutionValue(XResolution, width), YResolution)
  {
    var a := Quoted(XResolution);
    var d := IntStr(width);
    assert !Contains(d + "]", YResolution) by {
      IntStrShape(width);
      forall k | 0 <= k < |d + "]"| ensures (d + "]")[k] != 'i' {
        if k < |d| {
          assert IsIntChar(d[k]);
        }
      }
      AbsentPattern(d + "]", YResolution);
    }
    assert !Contains(" [" + (d + "]"), YResolution) by {
      AbsentPattern(" [", YResolution);
      AbsentAcrossBarrier(" [", d + "]", YResolution);
    }
    assert !Contains(a + (" [" + (d + "]")), YResolution) by {
      ResolutionKeyFacts();
      QuotedXLacksY();
      AbsentAcrossBarrier(a, " [" + (d + "]"), YResolution);
    }
    assert ResolutionValue(XResolution, width) == a + (" [" + (d + "]"));
  }

  /** Patching the x resolution never creates a y key. */
  lemma NoResolutionCreated(t: string, width: int)
    ensures Contains(PatchResolution(t, XResolution, width), YResolution) ==> Contains(t, YResolution)
  {
    if Contains(t, XResolution) && Contains(PatchResolution(t, XResolution, width), YResolution) {
      var rep := ResolutionValue(XResolution, width);
      ResolutionKeyFacts();
      XValueLacksY(width);
      assert rep[0] == '"' && rep[|rep| - 1] == ']';
      SubAllCreatesNoOccurrence(t, Quoted(XResolution), rep, YResolution);
    }
  }

  /** A key without newline or quote has a one-line quoted form that ends in a quote. */
  lemma QuotedShape(key: string)
    requires OneLine(key) && '"' !in key
    ensures OneLine(Quoted(key)) && Contains(Quoted(key), key)
  {
    var q := Quoted(key);
    assert q[1..][..|key|] == key;
    assert StartsWith(q[1..], key);
  }

  /** The declaration `"key" mid [prev]` a scene template carries on one line. */
  function Declaration(key: string, mid: string, prev: string): string
  {
    Quoted(key) + mid + "[" + prev + "]"
  }

  /** The declaration starts a line of its own, after an indent without quotes; neither
      `before` nor `rest` quotes the key again; and the declaration stays on one line
      with one bracketed value. */
  predicate SoleDeclaration(before: string, key: string, mid: string, prev: string, rest: string)
  {
    && (exists k :: 0 <= k <= |before| && LineIndent(before, k, '"'))
    && !Contains(before, Quoted(key)) && !Contains(rest, Quoted(key))
    && '[' !in mid && OneLine(mid) && ']' !in prev && OneLine(prev)
  }

  /** A sole declaration is rewritten to `"key" [v]` and nothing else moves. */
  lemma ResolutionRewritten(before: string, key: string, mid: string, prev: string, rest: string, v: int)
    requires OneLine(key) && '"' !in key
    requires SoleDeclaration(before, key, mid, prev, rest)
    ensures PatchResolution(before + Declaration(key, mid, prev) + rest, key, v)
            == before + ResolutionValue(key, v) + rest
  {
    var decl := Quoted(key) + mid + "[" + prev + "]" + rest;
    assert before + Declaration(key, mid, prev) + rest == before + decl;
    DeclarationHoldsKey(key, mid + "[" + prev + "]" + rest);
    assert Quoted(key) + (mid + "[" + prev + "]" + rest) == decl;
    ContainsSuffix(before + decl, |before|, key);
    assert (before + decl)[|before|..] == decl;
    var k :| LineIndent(before, k, '"');
    assert Quoted(key)[0] == '"';
    SubAllDeclaration(before, Quoted(key), mid, prev, rest, ResolutionValue(key, v), k);
  }

  /** A scene file's `Film` line, and the indent its parameter lines carry. */
  const FilmLine := "Film \"fleximage\"\n"
  const ParameterIndent := "    "

  /** The lines before an indented x declaration under a `Film` line leave it the sole
      declaration. */
  lemma IndentedDeclarationSole()
    ensures SoleDeclaration(FilmLine + ParameterIndent, XResolution, " ", "800", "\n")
  {
    var qx := Quoted(XResolution);
    assert |qx| == 21 && qx[0] == '"' && OneLine(qx) by {
      ResolutionKeyFacts();
    }
    FilmLayout();
    assert !Contains(FilmLine, qx) by {
      AbsentPattern(FilmLine, qx);
    }
    LinesThenIndent(FilmLine, ParameterIndent, qx);
    assert !Contains("\n", qx) by {
      AbsentPattern("\n", qx);
    }
  }

  /** The literal facts about the `Film` line and the indent. */
  lemma FilmLayout()
    ensures |FilmLine| == 17 && FilmLine[16] == '\n' && '"' !in ParameterIndent
    ensures '[' !in " " && OneLine(" ") && ']' !in "800" && OneLine("800")
  {
  }

  /** An indented x declaration under a `Film` line, as LuxRender scene files lay out
      their parameters, is rewritten in place. */
  lemma IndentedDeclarationRewritten(width: int)
    ensures PatchResolution(FilmLine + ParameterIndent + Declaration(XResolution, " ", "800") + "\n", XResolution, width)
            == FilmLine + ParameterIndent + ResolutionValue(XResolution, width) + "\n"
  {
    IndentedDeclarationSole();
    ResolutionKeyFacts();
    ResolutionRewritten(FilmLine + ParameterIndent, XResolution, " ", "800", "\n", width);
  }

  /** Text that starts with the quoted key holds the key. */
  lemma DeclarationHoldsKey(key: string, tail: string)
    requires OneLine(key) && '"' !in key
    ensures Contains(Quoted(key) + tail, key)
  {
    QuotedShape(key);
    var d := Quoted(key) + tail;
    assert d[..|Quoted(key)|] == Quoted(key);
    ContainsPrefix(d, |Quoted(key)|, key);
  }

  /** A declaration holds its key wherever it sits. */
  lemma DeclarationFound(before: string, key: string, mid: string, prev: string, rest: string)
    requires OneLine(key) && '"' !in key
    ensures Contains(before + Declaration(key, mid, prev) + rest, key)
  {
    var t := before + Declaration(key, mid, prev) + rest;
    DeclarationHoldsKey(key, mid + "[" + prev + "]" + rest);
    assert Quoted(key) + (mid + "[" + prev + "]" + rest) == Declaration(key, mid, prev) + rest;
    assert t[|before|..] == Declaration(key, mid, prev) + rest;
    ContainsSuffix(t, |before|, key);
  }

  /** Lines that do not quote the y key keep not quoting it around a rewritten x value. */
  lemma NothingQuotesY(a: string, width: int, b: string)
    requires exists k :: 0 <= k <= |a| && LineIndent(a, k, '"')
    requires !Contains(a, Quoted(YResolution)) && !Contains(b, Quoted(YResolution))
    ensures !Contains(a + ResolutionValue(XResolution, width) + b, Quoted(YResolution))
  {
    var qy := Quoted(YResolution);
    var vx := ResolutionValue(XResolution, width);
    assert '\n' !in qy && ']' !in qy && !Contains(vx, qy) by {
      ResolutionKeyFacts();
      QuotedShape(YResolution);
      XValueLacksY(width);
      ContainsTrans(vx, qy, YResolution);
    }
    assert !Contains(a + vx, qy) by {
      var k :| LineIndent(a, k, '"');
      assert qy[0] == '"';
      AbsentAfterLineIndent(a, vx, qy, k);
    }
    assert (a + vx)[|a + vx| - 1] == ']';
    AbsentAcrossBarrier(a + vx, b, qy);
  }

  /** A template whose x and y declarations each start a line, indented or not, gets
      both values rewritten in place, and its result page moves to the temporary file. */
  lemma TemplatePatched(width: int, height: int,
                        a: string, xm: string, xp: string, b: string, ym: string, yp: string, c: string)
    requires SoleDeclaration(a, XResolution, xm, xp, b + Declaration(YResolution, ym, yp) + c)
    requires exists k :: 0 < k <= |b| && LineIndent(b, k, '"')
    requires !Contains(a, Quoted(YResolution))
    requires SoleDeclaration(b, YResolution, ym, yp, c)
    ensures Resize(a + Declaration(XResolution, xm, xp) + b + Declaration(YResolution, ym, yp) + c, width, height)
            == (a + ResolutionValue(XResolution, width) + b + ResolutionValue(YResolution, height) + c, true)
  {
    XRewrittenBeforeY(a, xm, xp, b, ym, yp, c, width);
    var vx := ResolutionValue(XResolution, width);
    NothingQuotesY(a, width, b);
    assert exists k :: LineIndent(a + vx + b, k, '"') by {
      var k :| 0 < k <= |b| && LineIndent(b, k, '"');
      var t := a + vx + b;
      assert t[|a + vx| + k - 1] == b[k - 1];
      assert t[|a + vx| + k..] == b[k..];
      assert LineIndent(t, |a + vx| + k, '"');
    }
    YRewritten(a + vx + b, ym, yp, c, height);
  }

  /** The x patch of a template that declares x before y. */
  lemma XRewrittenBeforeY(a: string, xm: string, xp: string, b: string, ym: string, yp: string, c: string,
                          width: int)
    requires SoleDeclaration(a, XResolution, xm, xp, b + Declaration(YResolution, ym, yp) + c)
    ensures PatchResolution(a + Declaration(XResolution, xm, xp) + b + Declaration(YResolution, ym, yp) + c,
                            XResolution, width)
            == a + ResolutionValue(XResolution, width) + b + Declaration(YResolution, ym, yp) + c
  {
    var dx := Declaration(XResolution, xm, xp);
    var dy := Declaration(YResolution, ym, yp);
    var vx := ResolutionValue(XResolution, width);
    var rest := b + dy + c;
    assert a + dx + b + dy + c == a + dx + rest by { Regroup(a, dx, b, dy, c); }
    assert a + vx + b + dy + c == a + vx + rest by { Regroup(a, vx, b, dy, c); }
    assert PatchResolution(a + dx + rest, XResolution, width) == a + vx + rest by {
      ResolutionKeyFacts();
      ResolutionRewritten(a, XResolution, xm, xp, rest, width);
    }
  }

  /** A sole y declaration is found by the presence test and rewritten. */
  lemma YRewritten(before: string, ym: string, yp: string, c: string, height: int)
    requires SoleDeclaration(before, YResolution, ym, yp, c)
    ensures Contains(before + Declaration(YResolution, ym, yp) + c, YResolution)
    ensures PatchResolution(before + Declaration(YResolution, ym, yp) + c, YResolution, height)
            == before + ResolutionValue(YResolution, height) + c
  {
    ResolutionKeyFacts();
    DeclarationFound(before, YResolution, ym, yp, c);
    ResolutionRewritten(before, YResolution, ym, yp, c, height);
  }

  /** The quirk of the single flag: a template with only a y declaration still gets it
      rewritten, and still moves to the temporary file. */
  lemma YAlonePatched(width: int, height: int, a: string, ym: string, yp: string, r: string)
    requires SoleDeclaration(a, YResolution, ym, yp, r)
    requires !Contains(a + Declaration(YResolution, ym, yp) + r, XResolution)
    ensures Resize(a + Declaration(YResolution, ym, yp) + r, width, height)
            == (a + ResolutionValue(YResolution, height) + r, true)
  {
    YRewritten(a, ym, yp, r, height);
  }

  /** A template with only an x declaration gets it rewritten, but the patched text is
      never written out: the result page stays where it was. */
  lemma XAloneNotSwapped(width: int, height: int, a: string, xm: string, xp: string, r: string)
    requires SoleDeclaration(a, XResolution, xm, xp, r)
    requires !Contains(a + Declaration(XResolution, xm, xp) + r, YResolution)
    ensures Resize(a + Declaration(XResolution, xm, xp) + r, width, height)
            == (a + ResolutionValue(XResolution, width) + r, false)
  {
    ResolutionKeyFacts();
    var contents := a + Declaration(XResolution, xm, xp) + r;
    ResolutionRewritten(a, XResolution, xm, xp, r, width);
    NoResolutionCreated(contents, width);
  }

  /** The y key written between the x key and its bracket is part of the text. */
  lemma YInsideX()
    ensures Contains(Declaration(XResolution, " " + YResolution + " ", ""), YResolution)
  {
    var contents := Declaration(XResolution, " " + YResolution + " ", "");
    var k := |Quoted(XResolution)| + 1;
    assert contents[k..k + |YResolution|] == YResolution;
    assert OccursAt(contents, YResolution, k);
    ContainsIffOccurs(contents, YResolution);
  }

  /** The swap tests the text after the x patch, so a y key that sits inside an x
      declaration is consumed by that patch and no swap happens although the original
      text holds the y key. */
  lemma SwapCanMissY(width: int, height: int)
    ensures var contents := Declaration(XResolution, " " + YResolution + " ", "");
            Contains(contents, YResolution) && !Resize(contents, width, height).1
  {
    ResolutionKeyFacts();
    var mid := " " + YResolution + " ";
    var contents := Declaration(XResolution, mid, "");
    YInsideX();
    assert PatchResolution(contents, XResolution, width) == ResolutionValue(XResolution, width) by {
      assert LineIndent("", 0, '"');
      ResolutionRewritten("", XResolution, mid, "", "", width);
      assert "" + contents + "" == contents;
      assert "" + ResolutionValue(XResolution, width) + "" == ResolutionValue(XResolution, width);
    }
    XValueLacksY(width);
  }

  /** The command's shape, split at spaces, when there are parameters. */
  lemma CommandSplitArgs(head: string, args: string, page: string)
    requires ' ' !in page
    ensures Split(head + [' '] + (args + [' '] + page), ' ') == Split(head, ' ') + Split(args, ' ') + [page]
  {
    SplitNoSep(page, ' ');
    SplitAppend(head, args + [' '] + page, ' ');
    SplitAppend(args, page, ' ');
  }

  /** The command's shape, split at spaces, without parameters. */
  lemma CommandSplitBare(head: string, page: string)
    requires ' ' !in page
    ensures Split(head + [' '] + page, ' ') == Split(head, ' ') + [page]
  {
    SplitNoSep(page, ' ');
    SplitAppend(head, page, ' ');
  }

  /** The command, split at spaces, is the prefixed executable's words, the parameters'
      words when there are any, and the result page as the last word. */
  lemma CommandTokens(prefix: string, rpath: string, args: string, page: string)
    requires rpath != "" && ' ' !in page
    ensures Launch(prefix, rpath, args, page).Launched?
    ensures Split(Launch(prefix, rpath, args, page).command, ' ')
            == Split(prefix + rpath, ' ') + (if args != "" then Split(args, ' ') else []) + [page]
  {
    var head := prefix + rpath;
    if args != "" {
      assert Launch(prefix, rpath, args, page).command == head + [' '] + (args + [' '] + page);
      CommandSplitArgs(head, args, page);
    } else {
      assert Launch(prefix, rpath, args, page).command == head + [' '] + page;
      CommandSplitBare(head, page);
    }
  }
}
