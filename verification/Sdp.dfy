/** Replacing the ICE credentials of an SDP offer (section 5.4 of RFC 8839 names the lines). */
module Sdp {
  import opened Bytes

  const UFRAG: string := "a=ice-ufrag:"
  const PWD: string := "a=ice-pwd:"
  const CRLF: string := "\r\n"

  datatype MungeError = Replaced(count: nat)

  predicate IsUfrag(line: string) { UFRAG <= line }

  predicate IsPwd(line: string) { PWD <= line }

  predicate IsCredential(line: string) { IsUfrag(line) || IsPwd(line) }

  // ----- lines -----

  /** `split('\n')`: one piece more than there are newlines. */
  function Split(s: string): (parts: seq<string>)
    ensures |parts| >= 1
    ensures forall i :: 0 <= i < |parts| ==> '\n' !in parts[i]
  {
    if s == "" then [""]
    else if s[0] == '\n' then [""] + Split(s[1..])
    else
      var others := Split(s[1..]);
      [[s[0]] + others[0]] + others[1..]
  }

  function StripCr(line: string): string {
    if line != "" && line[|line| - 1] == '\r' then line[..|line| - 1] else line
  }

  /** The stripped pieces that are not empty. */
  function NonEmpty(parts: seq<string>): (lines: seq<string>)
    ensures (forall i :: 0 <= i < |parts| ==> '\n' !in parts[i]) ==> CleanLines(lines)
  {
    if parts == [] then []
    else if StripCr(parts[0]) == "" then NonEmpty(parts[1..])
    else [StripCr(parts[0])] + NonEmpty(parts[1..])
  }

  predicate CleanLines(lines: seq<string>) {
    forall i :: 0 <= i < |lines| ==> lines[i] != "" && '\n' !in lines[i]
  }

  function Lines(s: string): (lines: seq<string>)
    ensures CleanLines(lines)
  {
    NonEmpty(Split(s))
  }

  function Render(lines: seq<string>): string {
    if lines == [] then "" else lines[0] + CRLF + Render(lines[1..])
  }

  // ----- munging -----

  function MungeLine(line: string, ufrag: string): string {
    if IsUfrag(line) then UFRAG + ufrag else if IsPwd(line) then PWD + ufrag else line
  }

  function MungeLines(lines: seq<string>, ufrag: string): (munged: seq<string>)
    ensures |munged| == |lines|
  {
    seq(|lines|, i requires 0 <= i < |lines| => MungeLine(lines[i], ufrag))
  }

  function Count(lines: seq<string>, wanted: string -> bool): nat {
    if lines == [] then 0 else (if wanted(lines[0]) then 1 else 0) + Count(lines[1..], wanted)
  }

  function Munge(sdp: string, ufrag: string): Result<string, MungeError> {
    var lines := Lines(sdp);
    var replaced := Count(lines, IsCredential);
    if replaced != 2 then Err(Replaced(replaced)) else Ok(Render(MungeLines(lines, ufrag)))
  }

  /** `out` and `replaced` are right for the pieces seen so far. */
  ghost predicate MungedSoFar(parts: seq<string>, ufrag: string, out: string, replaced: nat) {
    && out == Render(MungeLines(NonEmpty(parts), ufrag))
    && replaced == Count(NonEmpty(parts), IsCredential)
  }

  lemma {:induction false} NonEmptyAppend(parts: seq<string>, part: string)
    ensures NonEmpty(parts + [part]) == NonEmpty(parts) + if StripCr(part) == "" then [] else [StripCr(part)]
  {
    if parts == [] {
      assert [part][1..] == [];
    } else {
      assert (parts + [part])[1..] == parts[1..] + [part];
      NonEmptyAppend(parts[1..], part);
    }
  }

  lemma {:induction false} RenderAppend(lines: seq<string>, line: string)
    ensures Render(lines + [line]) == Render(lines) + line + "\r\n"
  {
    if lines == [] {
      assert Render([line]) == line + CRLF + Render([]);
    } else {
      assert (lines + [line])[1..] == lines[1..] + [line];
      RenderAppend(lines[1..], line);
    }
  }

  lemma {:induction false} CountAppend(lines: seq<string>, line: string)
    ensures Count(lines + [line], IsCredential) == Count(lines, IsCredential) + if IsCredential(line) then 1 else 0
  {
    if lines == [] {
      assert Count([line], IsCredential) == (if IsCredential(line) then 1 else 0) + Count([], IsCredential);
    } else {
      assert (lines + [line])[1..] == lines[1..] + [line];
      CountAppend(lines[1..], line);
    }
  }

  lemma LineAppend(lines: seq<string>, line: string, ufrag: string)
    ensures Render(MungeLines(lines + [line], ufrag))
      == Render(MungeLines(lines, ufrag)) + MungeLine(line, ufrag) + CRLF
    ensures Count(lines + [line], IsCredential) == Count(lines, IsCredential) + if IsCredential(line) then 1 else 0
  {
    assert MungeLines(lines + [line], ufrag) == MungeLines(lines, ufrag) + [MungeLine(line, ufrag)];
    RenderAppend(MungeLines(lines, ufrag), MungeLine(line, ufrag));
    CountAppend(lines, line);
  }

  lemma MungedNext(parts: seq<string>, part: string, ufrag: string, out: string, replaced: nat)
    requires MungedSoFar(parts, ufrag, out, replaced)
    ensures StripCr(part) == "" ==> MungedSoFar(parts + [part], ufrag, out, replaced)
    ensures StripCr(part) != "" ==>
      MungedSoFar(parts + [part], ufrag, out + MungeLine(StripCr(part), ufrag) + CRLF,
                  replaced + if IsCredential(StripCr(part)) then 1 else 0)
  {
    NonEmptyAppend(parts, part);
    LineAppend(NonEmpty(parts), StripCr(part), ufrag);
    assert NonEmpty(parts) + [] == NonEmpty(parts);
  }

  /** Appending to `out` in two steps is appending the rewritten line. */
  lemma AppendsMunged(out: string, line: string, ufrag: string)
    ensures IsUfrag(line) ==> (out + UFRAG) + ufrag == out + MungeLine(line, ufrag)
    ensures !IsUfrag(line) && IsPwd(line) ==> (out + PWD) + ufrag == out + MungeLine(line, ufrag)
    ensures !IsUfrag(line) && !IsPwd(line) ==> out + line == out + MungeLine(line, ufrag)
  {
  }

  /** One line: credentials are replaced, others copied, all end in CRLF. */
  method AppendLine(out: string, line: string, ufrag: string) returns (longer: string, hit: bool)
    ensures longer == out + MungeLine(line, ufrag) + CRLF && hit == IsCredential(line)
  {
    AppendsMunged(out, line, ufrag);
    longer := out;
    hit := true;
    if UFRAG <= line {
      longer := longer + UFRAG;
      longer := longer + ufrag;
    } else if PWD <= line {
      longer := longer + PWD;
      longer := longer + ufrag;
    } else {
      longer := longer + line;
      hit := false;
    }
    longer := longer + CRLF;
  }

  method MungeOffer(sdp: string, ufrag: string) returns (r: Result<string, MungeError>)
    ensures r == Munge(sdp, ufrag)
  {
    var out := "";
    var replaced := 0;
    var parts := Split(sdp);
    for i := 0 to |parts|
      invariant MungedSoFar(parts[..i], ufrag, out, replaced)
    {
      var line := StripCr(parts[i]);
      MungedNext(parts[..i], parts[i], ufrag, out, replaced);
      assert parts[..i] + [parts[i]] == parts[..i + 1];
      if line == "" {
        continue;
      }
      var hit;
      out, hit := AppendLine(out, line, ufrag);
      replaced := replaced + if hit then 1 else 0;
    }
    assert parts[..|parts|] == parts;
    if replaced != 2 {
      return Err(Replaced(replaced));
    }
    r := Ok(out);
  }

  // ----- rendering and reading lines are inverse -----

  lemma {:induction false} SplitLine(line: string, rest: string)
    requires '\n' !in line
    ensures Split(line + "\n" + rest) == [line] + Split(rest)
  {
    var s := line + "\n" + rest;
    if line == "" {
      assert s[1..] == rest;
    } else {
      assert s[0] == line[0];
      assert s[1..] == line[1..] + "\n" + rest;
      SplitLine(line[1..], rest);
      assert [line[0]] + line[1..] == line;
      assert ([line[1..]] + Split(rest))[1..] == Split(rest);
    }
  }

  lemma {:induction false} SplitOfOne(line: string)
    requires '\n' !in line
    ensures Split(line) == [line]
  {
    if line != "" {
      SplitOfOne(line[1..]);
      assert [line[0]] + line[1..] == line;
    }
  }

  /** The line read from a piece, if anything is left of it. */
  function LineIn(piece: string): seq<string> {
    if StripCr(piece) == "" then [] else [StripCr(piece)]
  }

  lemma EndedLine(piece: string, rest: string)
    requires '\n' !in piece
    ensures Lines(piece + "\n" + rest) == LineIn(piece) + Lines(rest)
  {
    SplitLine(piece, rest);
    assert ([piece] + Split(rest))[1..] == Split(rest);
  }

  lemma UnendedLine(piece: string)
    requires '\n' !in piece
    ensures Lines(piece) == LineIn(piece)
  {
    SplitOfOne(piece);
    assert NonEmpty([piece]) == LineIn(piece) + NonEmpty([piece][1..]);
  }

  /** A line may end in LF, in CRLF or with the text, and the ending is dropped. */
  lemma LineEndings(line: string, rest: string)
    requires line != "" && '\n' !in line
    ensures Lines(line + "\r\n" + rest) == [line] + Lines(rest)
    ensures line[|line| - 1] != '\r' ==> Lines(line + "\n" + rest) == [line] + Lines(rest)
    ensures line[|line| - 1] != '\r' ==> Lines(line) == [line]
    ensures Lines(line + "\r") == [line]
  {
    var piece := line + "\r";
    assert piece[..|line|] == line;
    assert line + "\r\n" + rest == piece + "\n" + rest;
    EndedLine(piece, rest);
    EndedLine(line, rest);
    UnendedLine(piece);
    UnendedLine(line);
  }

  lemma EmptyLinesDropped(rest: string)
    ensures Lines("\n" + rest) == Lines("\r\n" + rest) == Lines(rest)
    ensures Lines("") == Lines("\r") == []
  {
    assert "\n" + rest == "" + "\n" + rest && "\r\n" + rest == "\r" + "\n" + rest;
    EndedLine("", rest);
    EndedLine("\r", rest);
    UnendedLine("");
    UnendedLine("\r");
  }

  lemma {:induction false} LinesOfRender(lines: seq<string>)
    requires CleanLines(lines)
    ensures Lines(Render(lines)) == lines
  {
    if lines == [] {
      assert Split("")[1..] == [];
    } else {
      var line, rest := lines[0], Render(lines[1..]);
      assert Render(lines) == (line + "\r") + "\n" + rest;
      SplitLine(line + "\r", rest);
      assert StripCr(line + "\r") == line;
      assert ([line + "\r"] + Split(rest))[1..] == Split(rest);
      LinesOfRender(lines[1..]);
    }
  }

  lemma MungeLineTwice(line: string, u1: string, u2: string)
    ensures MungeLine(MungeLine(line, u1), u2) == MungeLine(line, u2)
    ensures IsUfrag(MungeLine(line, u1)) == IsUfrag(line) && IsPwd(MungeLine(line, u1)) == IsPwd(line)
  {
    assert UFRAG[6] != PWD[6];
    assert (UFRAG + u1)[6] == UFRAG[6] && (PWD + u1)[6] == PWD[6];
  }

  lemma {:induction false} CountOfMunged(lines: seq<string>, ufrag: string)
    ensures Count(MungeLines(lines, ufrag), IsCredential) == Count(lines, IsCredential)
  {
    if lines != [] {
      MungeLineTwice(lines[0], ufrag, ufrag);
      assert MungeLines(lines, ufrag)[1..] == MungeLines(lines[1..], ufrag);
      CountOfMunged(lines[1..], ufrag);
    }
  }

  /** The output has the input's lines in order, each ended by CRLF, and only credentials changed. */
  lemma MungeKeepsLines(sdp: string, ufrag: string)
    requires Munge(sdp, ufrag).Ok? && '\n' !in ufrag
    ensures Lines(Munge(sdp, ufrag).value) == MungeLines(Lines(sdp), ufrag)
    ensures Munge(sdp, ufrag).value == Render(Lines(Munge(sdp, ufrag).value))
    ensures |Lines(Munge(sdp, ufrag).value)| == |Lines(sdp)|
    ensures forall i :: 0 <= i < |Lines(sdp)| ==>
      var line, munged := Lines(sdp)[i], Lines(Munge(sdp, ufrag).value)[i];
      && ("a=ice-ufrag:" <= line ==> munged == "a=ice-ufrag:" + ufrag)
      && ("a=ice-pwd:" <= line ==> munged == "a=ice-pwd:" + ufrag)
      && (!("a=ice-ufrag:" <= line) && !("a=ice-pwd:" <= line) ==> munged == line)
  {
    var munged := MungeLines(Lines(sdp), ufrag);
    forall i | 0 <= i < |munged| ensures munged[i] != "" && '\n' !in munged[i] {
      assert '\n' !in UFRAG && '\n' !in PWD;
    }
    LinesOfRender(munged);
    forall i | 0 <= i < |munged| ensures IsPwd(Lines(sdp)[i]) ==> !IsUfrag(Lines(sdp)[i]) {
      NotBoth(Lines(sdp)[i]);
    }
  }

  lemma NotBoth(line: string)
    ensures !(IsUfrag(line) && IsPwd(line))
  {
    assert IsUfrag(line) ==> line[6] == UFRAG[6];
    assert IsPwd(line) ==> line[6] == PWD[6];
  }

  /** Munging again replaces the first credentials as if they had never been there. */
  lemma RemungeOverrides(sdp: string, u1: string, u2: string)
    requires Munge(sdp, u1).Ok? && '\n' !in u1
    ensures Munge(Munge(sdp, u1).value, u2) == Munge(sdp, u2)
  {
    MungeKeepsLines(sdp, u1);
    var lines := Lines(sdp);
    CountOfMunged(lines, u1);
    forall i | 0 <= i < |lines|
      ensures MungeLines(MungeLines(lines, u1), u2)[i] == MungeLines(lines, u2)[i]
    {
      MungeLineTwice(lines[i], u1, u2);
    }
    assert MungeLines(MungeLines(lines, u1), u2) == MungeLines(lines, u2);
  }

  lemma {:induction false} CountSplits(lines: seq<string>)
    ensures Count(lines, IsCredential) == Count(lines, IsUfrag) + Count(lines, IsPwd)
  {
    if lines != [] {
      NotBoth(lines[0]);
      CountSplits(lines[1..]);
    }
  }

  ghost function CredentialsIn(lines: seq<string>): set<nat> {
    set i | 0 <= i < |lines| && ("a=ice-ufrag:" <= lines[i] || "a=ice-pwd:" <= lines[i])
  }

  lemma CredentialsAppend(lines: seq<string>, line: string)
    ensures CredentialsIn(lines + [line]) == CredentialsIn(lines) + if IsCredential(line) then {|lines|} else {}
  {
    var all := lines + [line];
    assert forall i :: 0 <= i < |lines| ==> all[i] == lines[i];
    assert all[|lines|] == line;
  }

  lemma {:induction false} CountIsSize(lines: seq<string>)
    ensures Count(lines, IsCredential) == |CredentialsIn(lines)|
  {
    if lines == [] {
      assert CredentialsIn(lines) == {};
    } else {
      var front, n := lines[..|lines| - 1], |lines| - 1;
      CountIsSize(front);
      assert lines == front + [lines[n]];
      CountAppend(front, lines[n]);
      CredentialsAppend(front, lines[n]);
    }
  }

  /**
   The source's comment says an offer lacking either line is an error. The code counts both kinds
   together, so that holds exactly when the offer does not have one kind twice and the other never.
   */
  lemma LackingLineIsErrorIff(sdp: string, ufrag: string)
    ensures Munge(sdp, ufrag).Ok? <==> |CredentialsIn(Lines(sdp))| == 2
    ensures var u, p := Count(Lines(sdp), IsUfrag), Count(Lines(sdp), IsPwd);
      && (Munge(sdp, ufrag).Ok? <==> u + p == 2)
      && ((u == 0 || p == 0 ==> Munge(sdp, ufrag).Err?) <==> !(u == 2 && p == 0) && !(u == 0 && p == 2))
  {
    CountSplits(Lines(sdp));
    CountIsSize(Lines(sdp));
  }

  /** An offer with two user fragments and no password is accepted. */
  lemma TwoUfragsNoPwdAccepted(u: string)
    ensures var sdp := Render([UFRAG, UFRAG]);
      Munge(sdp, u).Ok? && Count(Lines(sdp), IsPwd) == 0
  {
    var lines := [UFRAG, UFRAG];
    assert CleanLines(lines);
    LinesOfRender(lines);
    assert !IsPwd(UFRAG) by { assert UFRAG[6] != PWD[6]; }
    assert lines[1..] == [UFRAG] && lines[1..][1..] == [];
    assert Count(lines, IsCredential) == 1 + Count(lines[1..], IsCredential)
      == 2 + Count(lines[1..][1..], IsCredential);
    assert Count(lines, IsPwd) == Count(lines[1..], IsPwd) == Count(lines[1..][1..], IsPwd);
  }
}
