/** The cmus side of the scrobbler: parsing the text `cmus-remote -Q` prints,
    the play-duration gate and the mapping to a track record. Running `pgrep`
    and `cmus-remote` is not modelled; their outcomes are inputs. */
module CmusStatus {
  import opened Wrappers
  import opened GoStrings
  import opened CmusNostr

  /** `CmusOutput`. */
  datatype CmusOutput = CmusOutput(status: string, position: int, tags: map<string, string>)

  const EmptyOutput: CmusOutput := CmusOutput("", 0, map[])

  /** The error `parseCmusStatus` returns: a `position` value Atoi rejects. */
  datatype ParseError = BadPosition(value: string)

  /** Why a cmus query did not give a usable status. */
  datatype CmusError = ExecFailed(message: string) | ParseFailed(cause: ParseError) | NotRunning | NotPlaying

  /** What one status line means to `parseCmusStatus`. */
  datatype Line = Ignored | StatusLine(value: string) | PositionLine(value: string) | TagLine(name: string, value: string)

  /** The key is the text before the first space, the value the rest, trimmed;
      a `tag` value is split once more at its first space. */
  function ClassifyLine(line: string): Line {
    match CutAtSpace(line)
    case None => Ignored
    case Some((key, rest)) =>
      var value := TrimSpace(rest);
      if key == "status" then StatusLine(value)
      else if key == "position" then PositionLine(value)
      else if key == "tag" then
        match CutAtSpace(value)
        case None => Ignored
        case Some((name, tagValue)) => TagLine(name, TrimSpace(tagValue))
      else Ignored
  }

  /** How the line shapes of the status text are read. */
  lemma LineShapes(key: string, rest: string, line: string)
    requires ' ' !in key
    ensures ' ' !in line ==> ClassifyLine(line) == Ignored
    ensures ClassifyLine(key + " " + rest) ==
      if key == "status" then StatusLine(TrimSpace(rest))
      else if key == "position" then PositionLine(TrimSpace(rest))
      else if key == "tag" && ' ' in TrimSpace(rest) then
        var cut := CutAtSpace(TrimSpace(rest)).value;
        TagLine(cut.0, TrimSpace(cut.1))
      else Ignored
  {
    CutAtFirstSpace(key, rest);
  }

  /** One step of the parse: the effect of one line on the output so far. */
  function ApplyLine(o: CmusOutput, line: string): Result<CmusOutput, ParseError> {
    match ClassifyLine(line)
    case Ignored => Ok(o)
    case StatusLine(v) => Ok(o.(status := v))
    case PositionLine(v) =>
      (match Atoi(v)
       case None => Err(BadPosition(v))
       case Some(n) => Ok(o.(position := n)))
    case TagLine(name, v) => Ok(o.(tags := o.tags[name := v]))
  }

  /** The lines applied in order to the empty output, stopping at the first error. */
  function ParseLines(lines: seq<string>): Result<CmusOutput, ParseError>
    decreases |lines|
  {
    if lines == [] then Ok(EmptyOutput)
    else
      match ParseLines(lines[..|lines| - 1])
      case Err(e) => Err(e)
      case Ok(o) => ApplyLine(o, lines[|lines| - 1])
  }

  /** Parsing one more line applies it to the output so far. */
  lemma ParseStep(lines: seq<string>, i: nat, o: CmusOutput)
    requires i < |lines| && ParseLines(lines[..i]) == Ok(o)
    ensures ParseLines(lines[..i + 1]) == ApplyLine(o, lines[i])
  {
    assert lines[..i + 1][..i] == lines[..i];
  }

  /** Once a prefix has failed, the whole parse fails with the same error. */
  lemma {:induction false} ErrorIsFinal(lines: seq<string>, n: nat)
    requires n <= |lines| && ParseLines(lines[..n]).Err?
    ensures ParseLines(lines) == ParseLines(lines[..n])
    decreases |lines| - n
  {
    if n < |lines| {
      assert lines[..n + 1][..n] == lines[..n];
      ErrorIsFinal(lines, n + 1);
    } else {
      assert lines[..n] == lines;
    }
  }

  /** The value of the last `status` line. */
  function LastStatus(lines: seq<string>): Option<string>
    decreases |lines|
  {
    if lines == [] then None
    else match ClassifyLine(lines[|lines| - 1])
      case StatusLine(v) => Some(v)
      case _ => LastStatus(lines[..|lines| - 1])
  }

  /** The value of the last `position` line. */
  function LastPosition(lines: seq<string>): Option<string>
    decreases |lines|
  {
    if lines == [] then None
    else match ClassifyLine(lines[|lines| - 1])
      case PositionLine(v) => Some(v)
      case _ => LastPosition(lines[..|lines| - 1])
  }

  /** The value of the last `tag <name> <value>` line for `name`. */
  function LastTag(lines: seq<string>, name: string): Option<string>
    decreases |lines|
  {
    if lines == [] then None
    else match ClassifyLine(lines[|lines| - 1])
      case TagLine(n, v) => if n == name then Some(v) else LastTag(lines[..|lines| - 1], name)
      case _ => LastTag(lines[..|lines| - 1], name)
  }

  predicate IsBadPositionLine(line: string) {
    ClassifyLine(line).PositionLine? && Atoi(ClassifyLine(line).value).None?
  }

  lemma ApplyLineFails(o: CmusOutput, line: string)
    ensures ApplyLine(o, line).Err? <==> IsBadPositionLine(line)
  {
  }

  /** The parse fails exactly when some `position` line does not hold an integer. */
  lemma {:induction false} ParseFailsIffBadPosition(lines: seq<string>)
    ensures ParseLines(lines).Err? <==> exists k :: 0 <= k < |lines| && IsBadPositionLine(lines[k])
    decreases |lines|
  {
    if lines != [] {
      var init, last := lines[..|lines| - 1], lines[|lines| - 1];
      ParseFailsIffBadPosition(init);
      assert forall k :: 0 <= k < |init| ==> init[k] == lines[k];
      if ParseLines(init).Err? {
        var k :| 0 <= k < |init| && IsBadPositionLine(init[k]);
        assert IsBadPositionLine(lines[k]);
      } else {
        ApplyLineFails(ParseLines(init).value, last);
        assert ParseLines(lines) == ApplyLine(ParseLines(init).value, last);
        if IsBadPositionLine(last) {
          assert IsBadPositionLine(lines[|lines| - 1]);
        } else {
          forall k | 0 <= k < |lines| ensures !IsBadPositionLine(lines[k]) {
            if k < |init| { assert lines[k] == init[k]; }
          }
        }
      }
    }
  }

  /** On success the fields hold what the last line of each kind said, and
      whatever no line set keeps its empty value. */
  lemma {:induction false} ParsedFields(lines: seq<string>)
    requires ParseLines(lines).Ok?
    ensures ParseLines(lines).value.status == LastStatus(lines).GetOr("")
    ensures ParseLines(lines).value.position == (match LastPosition(lines) case None => 0 case Some(v) => Atoi(v).GetOr(0))
    ensures LastPosition(lines).Some? ==> Atoi(LastPosition(lines).value).Some?
    ensures forall name :: name in ParseLines(lines).value.tags <==> LastTag(lines, name).Some?
    ensures forall name :: name in ParseLines(lines).value.tags ==> ParseLines(lines).value.tags[name] == LastTag(lines, name).value
    decreases |lines|
  {
    if lines != [] {
      ParsedFields(lines[..|lines| - 1]);
    }
  }

  /** `parseCmusStatus`: the lines of the output folded into a record. */
  method ParseCmusStatus(status: string) returns (r: Result<CmusOutput, ParseError>)
    ensures r == ParseLines(Split(status, '\n'))
    ensures status == "" ==> r == Ok(EmptyOutput)
  {
    var lines := Split(status, '\n');
    var output := CmusOutput("", 0, map[]);
    var i := 0;
    while i < |lines|
      invariant 0 <= i <= |lines|
      invariant ParseLines(lines[..i]) == Ok(output)
    {
      ParseStep(lines, i, output);
      var line := lines[i];
      var parts := CutAtSpace(line);
      if parts.Some? {
        var key, value := parts.value.0, TrimSpace(parts.value.1);
        if key == "status" {
          output := output.(status := value);
        } else if key == "position" {
          var position := Atoi(value);
          if position.None? {
            ErrorIsFinal(lines, i + 1);
            return Err(BadPosition(value));
          }
          output := output.(position := position.value);
        } else if key == "tag" {
          var tagParts := CutAtSpace(value);
          if tagParts.Some? {
            output := output.(tags := output.tags[tagParts.value.0 := TrimSpace(tagParts.value.1)]);
          }
        }
      }
      i := i + 1;
    }
    assert lines[..|lines|] == lines;
    return Ok(output);
  }

  /** What `parseCmusStatus` returns for a whole output: an error exactly when
      some `position` line does not hold an integer, and otherwise the values
      of the last `status`, `position` and `tag` lines. */
  lemma ParseCmusStatusMeaning(status: string)
    ensures ParseLines(Split(status, '\n')).Err? <==>
              exists k :: 0 <= k < |Split(status, '\n')| && IsBadPositionLine(Split(status, '\n')[k])
    ensures ParseLines(Split(status, '\n')).Ok? ==>
              ParseLines(Split(status, '\n')).value.status == LastStatus(Split(status, '\n')).GetOr("")
    ensures ParseLines(Split(status, '\n')).Ok? && LastPosition(Split(status, '\n')).None? ==>
              ParseLines(Split(status, '\n')).value.position == 0
    ensures ParseLines(Split(status, '\n')).Ok? && LastPosition(Split(status, '\n')).Some? ==>
              Atoi(LastPosition(Split(status, '\n')).value).Some?
    ensures ParseLines(Split(status, '\n')).Ok? && LastPosition(Split(status, '\n')).Some? ==>
              ParseLines(Split(status, '\n')).value.position == Atoi(LastPosition(Split(status, '\n')).value).value
    ensures ParseLines(Split(status, '\n')).Ok? ==>
              forall name :: name in ParseLines(Split(status, '\n')).value.tags <==> LastTag(Split(status, '\n'), name).Some?
    ensures ParseLines(Split(status, '\n')).Ok? ==>
              forall name :: name in ParseLines(Split(status, '\n')).value.tags ==>
                ParseLines(Split(status, '\n')).value.tags[name] == LastTag(Split(status, '\n'), name).value
  {
    var lines := Split(status, '\n');
    ParseFailsIffBadPosition(lines);
    if ParseLines(lines).Ok? {
      ParsedFields(lines);
    }
  }

  /** `hasPlayedLongEnough`: strictly more than 30 seconds. */
  predicate HasPlayedLongEnough(status: CmusOutput) {
    status.position > 30
  }

  /** `getCmusStatus` given what running `cmus-remote -Q` produced. */
  function GetCmusStatus(remote: Result<string, string>): (r: Result<CmusOutput, CmusError>)
    ensures remote.Err? ==> r == Err(ExecFailed(remote.error))
    ensures remote.Ok? ==> (r.Ok? <==> ParseLines(Split(remote.value, '\n')).Ok?)
    ensures remote.Ok? && r.Ok? ==> r.value == ParseLines(Split(remote.value, '\n')).value
  {
    match remote
    case Err(m) => Err(ExecFailed(m))
    case Ok(text) =>
      match ParseLines(Split(text, '\n'))
      case Err(e) => Err(ParseFailed(e))
      case Ok(o) => Ok(o)
  }

  /** `isCmusRunning` given what running `pgrep cmus` produced (a failed
      `pgrep`, including "no match", is an error). */
  function IsCmusRunning(pgrep: Result<string, string>): (r: Result<bool, CmusError>)
    ensures r.Ok? <==> pgrep.Ok?
    ensures r.Ok? ==> (r.value <==> pgrep.value != "")
  {
    match pgrep
    case Err(m) => Err(ExecFailed(m))
    case Ok(out) => Ok(|out| > 0)
  }

  /** `isCmusPlaying`. */
  function IsCmusPlaying(status: Result<CmusOutput, CmusError>): (r: Result<bool, CmusError>)
    ensures r.Ok? <==> status.Ok?
    ensures r.Ok? ==> (r.value <==> status.value.status == "playing")
  {
    match status
    case Err(e) => Err(e)
    case Ok(o) => Ok(o.status == "playing")
  }

  /** `waitForCmus`: succeeds exactly when cmus runs and plays; `status` is
      its own `cmus-remote -Q` query, separate from the one `getCurrentTrack` makes. */
  function WaitForCmus(pgrep: Result<string, string>, status: Result<CmusOutput, CmusError>): (r: Outcome<CmusError>)
    ensures r.Pass? <==> pgrep.Ok? && pgrep.value != "" && status.Ok? && status.value.status == "playing"
    ensures pgrep.Ok? && pgrep.value == "" ==> r == Fail(NotRunning)
    ensures pgrep.Ok? && pgrep.value != "" && status.Ok? && status.value.status != "playing" ==> r == Fail(NotPlaying)
  {
    match IsCmusRunning(pgrep)
    case Err(e) => Fail(e)
    case Ok(running) =>
      if !running then Fail(NotRunning)
      else match IsCmusPlaying(status)
        case Err(e) => Fail(e)
        case Ok(playing) => if !playing then Fail(NotPlaying) else Pass
  }

  /** `getTags`: a copy of the parsed tag map. */
  method GetTags(status: CmusOutput) returns (tags: map<string, string>, err: Outcome<CmusError>)
    ensures tags == status.tags && err == Pass
  {
    tags := map[];
    var remaining := status.tags.Keys;
    while remaining != {}
      invariant remaining <= status.tags.Keys
      invariant tags.Keys == status.tags.Keys - remaining
      invariant forall k :: k in tags ==> tags[k] == status.tags[k]
      decreases remaining
    {
      var k :| k in remaining;
      tags := tags[k := status.tags[k]];
      remaining := remaining - {k};
    }
    err := Pass;
  }

  /** A Go map lookup: the zero value "" for a missing key. */
  function TagOrEmpty(tags: map<string, string>, key: string): string {
    if key in tags then tags[key] else ""
  }

  /** `getCurrentTrack`: the all-empty record while the track has not played
      long enough, otherwise the `artist`, `title`, `album` and `mbid` tags. */
  function GetCurrentTrack(status: Result<CmusOutput, CmusError>): (r: Result<ScrobbleEvent, CmusError>)
    ensures status.Err? ==> r == Err(status.error)
    ensures status.Ok? && !HasPlayedLongEnough(status.value) ==> r == Ok(ScrobbleEvent("", "", "", ""))
    ensures status.Ok? && HasPlayedLongEnough(status.value) ==>
      var t := status.value.tags;
      r == Ok(ScrobbleEvent(TagOrEmpty(t, "artist"), TagOrEmpty(t, "title"), TagOrEmpty(t, "album"), TagOrEmpty(t, "mbid")))
  {
    match status
    case Err(e) => Err(e)
    case Ok(o) =>
      if !HasPlayedLongEnough(o) then Ok(ScrobbleEvent("", "", "", ""))
      else
        var t := o.tags;
        Ok(ScrobbleEvent(TagOrEmpty(t, "artist"), TagOrEmpty(t, "title"), TagOrEmpty(t, "album"), TagOrEmpty(t, "mbid")))
  }

  /** A track that has played 30 seconds or less yields no title, so no scrobble. */
  lemma ShortPlayHasNoTitle(status: CmusOutput)
    requires status.position <= 30
    ensures GetCurrentTrack(Ok(status)).Ok? && GetCurrentTrack(Ok(status)).value.track == ""
  {
  }
}
