/** `CommandParticleGenerator`: turns command text into particles, one
    `color x y` line per particle. `#` starts a comment, blank lines are
    skipped, and every faulty line is reported by its 1-based number.

    `Color(from:)` and `Float(_:)` are not part of this model: they are the
    parameters `colorOf` and `parseFloat`, partial functions from a token to
    a colour or a number.
 */
module Commands {
  import opened Results
  import opened Colors
  import opened Types
  import opened Text

  /** Why a line was rejected, with the offending text. */
  datatype LineError =
    | InvalidCommand(tokens: seq<string>)
    | InvalidColor(token: string)
    | InvalidX(token: string)
    | InvalidY(token: string)

  /** `"\(tokens)"` for an array of strings: each token in double quotes,
      separated by ", ", inside brackets. */
  function ArrayDescription(tokens: seq<string>): (s: string)
    ensures |s| >= 2 && s[0] == '[' && s[|s| - 1] == ']'
  {
    "[" + Join(seq(|tokens|, k requires 0 <= k < |tokens| => "\"" + tokens[k] + "\""), ", ") + "]"
  }

  /** The `MessageError` text of a rejected line. */
  function Message(e: LineError): string
  {
    match e
    case InvalidCommand(tokens) => "Invalid command: " + ArrayDescription(tokens)
    case InvalidColor(token) => "Invalid color: " + token
    case InvalidX(token) => "Invalid x: " + token
    case InvalidY(token) => "Invalid y: " + token
  }

  /** `line.prefix { $0 != "#" }`: the line up to its first `#`. */
  function StripComment(line: string): (command: string)
    ensures |command| <= |line| && command == line[..|command|]
    ensures '#' !in command
    ensures |command| < |line| ==> line[|command|] == '#'
  {
    var i := FirstIn(line, {'#'});
    assert forall k :: 0 <= k < i ==> line[..i][k] !in {'#'};
    line[..i]
  }

  /** The whitespace-separated words of the line's command part. */
  function Tokens(line: string): (tokens: seq<string>)
    ensures forall k :: 0 <= k < |tokens| ==> tokens[k] != [] && '#' !in tokens[k] && NoneIn(tokens[k], Whitespaces)
  {
    var command := StripComment(line);
    var parts := Split(command, Whitespaces);
    var tokens := NonEmpty(parts);
    assert forall k :: 0 <= k < |tokens| ==> '#' !in tokens[k] by {
      forall k | 0 <= k < |tokens| ensures '#' !in tokens[k] {
        var j :| 0 <= j < |parts| && parts[j] == tokens[k];
        SplitPiecesAreInfixes(command, Whitespaces, j);
      }
    }
    tokens
  }

  /** Every piece of a split is a run of consecutive characters of the
      original. */
  lemma {:induction false} SplitPiecesAreInfixes(s: string, separators: set<char>, j: nat)
    requires j < |Split(s, separators)|
    ensures forall c :: c in Split(s, separators)[j] ==> c in s
    decreases |s|
  {
    var i := FirstIn(s, separators);
    if i < |s| && j > 0 {
      SplitPiecesAreInfixes(s[i + 1..], separators, j - 1);
    }
  }

  /** `processLine(_:)`: no particle for a blank or comment-only line, an
      error unless there are exactly three tokens, then the colour, x and y
      are checked in that order and the first failure is reported. */
  function ProcessLine(line: string, colorOf: string -> Option<Color>, parseFloat: string -> Option<real>)
    : (r: Result<Option<Particle>, LineError>)
    ensures var t := Tokens(line);
      && (r == Ok(None) <==> t == [])
      && (r == Err(InvalidCommand(t)) <==> t != [] && |t| != 3)
      && (|t| == 3 ==>
            && (r == Err(InvalidColor(t[0])) <==> colorOf(t[0]).None?)
            && (r == Err(InvalidX(t[1])) <==> colorOf(t[0]).Some? && parseFloat(t[1]).None?)
            && (r == Err(InvalidY(t[2])) <==>
                  colorOf(t[0]).Some? && parseFloat(t[1]).Some? && parseFloat(t[2]).None?)
            && (r.Ok? <==> colorOf(t[0]).Some? && parseFloat(t[1]).Some? && parseFloat(t[2]).Some?))
    ensures r.Ok? && r.value.Some? ==>
              var t := Tokens(line);
              && |t| == 3 && colorOf(t[0]).Some? && parseFloat(t[1]).Some? && parseFloat(t[2]).Some?
              && r.value.value == MakeParticle(colorOf(t[0]).value, Vec2(parseFloat(t[1]).value, parseFloat(t[2]).value))
  {
    var t := Tokens(line);
    if t == [] then Ok(None)
    else if |t| != 3 then Err(InvalidCommand(t))
    else
      match colorOf(t[0])
      case None => Err(InvalidColor(t[0]))
      case Some(color) =>
        match parseFloat(t[1])
        case None => Err(InvalidX(t[1]))
        case Some(x) =>
          match parseFloat(t[2])
          case None => Err(InvalidY(t[2]))
          case Some(y) => Ok(Some(MakeParticle(color, Vec2(x, y))))
  }

  /** The outcome of each line of the command text. */
  function Outcomes(command: string, colorOf: string -> Option<Color>, parseFloat: string -> Option<real>)
    : (outs: seq<Result<Option<Particle>, LineError>>)
    ensures var lines := Split(command, Newlines);
      |outs| == |lines| && forall i :: 0 <= i < |lines| ==> outs[i] == ProcessLine(lines[i], colorOf, parseFloat)
  {
    var lines := Split(command, Newlines);
    seq(|lines|, i requires 0 <= i < |lines| => ProcessLine(lines[i], colorOf, parseFloat))
  }

  /** The particles of the accepted lines, in line order. */
  function ParticlesOf(outs: seq<Result<Option<Particle>, LineError>>): (ps: seq<Particle>)
    ensures |ps| <= |outs|
    ensures forall p :: p in ps ==> Ok(Some(p)) in outs
  {
    if |outs| == 0 then []
    else
      var last := outs[|outs| - 1];
      ParticlesOf(outs[..|outs| - 1]) + (if last.Ok? && last.value.Some? then [last.value.value] else [])
  }

  /** Each rejected line's number and error, by ascending line number. */
  function ErrorsOf(outs: seq<Result<Option<Particle>, LineError>>): (errs: seq<(nat, LineError)>)
    ensures forall k :: 0 <= k < |errs| ==> 1 <= errs[k].0 <= |outs| && outs[errs[k].0 - 1] == Err(errs[k].1)
    ensures forall k, l :: 0 <= k < l < |errs| ==> errs[k].0 < errs[l].0
  {
    if |outs| == 0 then []
    else
      var n := |outs|;
      var front := ErrorsOf(outs[..n - 1]);
      assert forall k :: 0 <= k < |front| ==> front[k].0 <= n - 1 && outs[front[k].0 - 1] == outs[..n - 1][front[k].0 - 1];
      front + (if outs[n - 1].Err? then [(n, outs[n - 1].error)] else [])
  }

  /** Every rejected line is listed, so the list is empty exactly when
      every line was accepted. */
  lemma {:induction false} ErrorsOfComplete(outs: seq<Result<Option<Particle>, LineError>>)
    ensures forall i :: 0 <= i < |outs| && outs[i].Err? ==> (i + 1, outs[i].error) in ErrorsOf(outs)
    ensures ErrorsOf(outs) == [] <==> forall i :: 0 <= i < |outs| ==> outs[i].Ok?
  {
    if |outs| > 0 {
      var n := |outs|;
      var front := outs[..n - 1];
      var tail := if outs[n - 1].Err? then [(n, outs[n - 1].error)] else [];
      ErrorsOfComplete(front);
      assert ErrorsOf(outs) == ErrorsOf(front) + tail;
      forall i | 0 <= i < n && outs[i].Err?
        ensures (i + 1, outs[i].error) in ErrorsOf(outs)
      {
        if i < n - 1 {
          assert front[i] == outs[i];
        }
      }
      if forall i :: 0 <= i < n ==> outs[i].Ok? {
        assert forall i :: 0 <= i < n - 1 ==> front[i].Ok? by {
          forall i | 0 <= i < n - 1 ensures front[i].Ok? {
            assert front[i] == outs[i];
          }
        }
      }
    }
  }

  /** One more line adds its particle, if any, at the end. */
  lemma ParticlesOfSnoc(outs: seq<Result<Option<Particle>, LineError>>, i: nat)
    requires i < |outs|
    ensures ParticlesOf(outs[..i + 1]) ==
              ParticlesOf(outs[..i]) + (if outs[i].Ok? && outs[i].value.Some? then [outs[i].value.value] else [])
  {
    assert outs[..i + 1][..i] == outs[..i];
  }

  /** One more line adds its error, if any, at the end. */
  lemma ErrorsOfSnoc(outs: seq<Result<Option<Particle>, LineError>>, i: nat)
    requires i < |outs|
    ensures ErrorsOf(outs[..i + 1]) == ErrorsOf(outs[..i]) + (if outs[i].Err? then [(i + 1, outs[i].error)] else [])
  {
    assert outs[..i + 1][..i] == outs[..i];
  }

  /** The error lines shown: all of them up to five, otherwise the first
      five and a count of the rest. */
  function Summary(messages: seq<string>): (shown: seq<string>)
    ensures |messages| <= 5 ==> shown == messages
    ensures |messages| > 5 ==> |shown| == 6 && shown[..5] == messages[..5]
    ensures |messages| > 5 ==> shown[5] == "(" + NatToString(|messages| - 5) + " more errors)"
  {
    if |messages| > 5 then messages[..5] + ["(" + NatToString(|messages| - 5) + " more errors)"]
    else messages
  }

  /** The text of the error thrown by `generate`. */
  function Report(errs: seq<(nat, LineError)>): string
  {
    var messages := seq(|errs|, k requires 0 <= k < |errs| =>
                          "Line " + NatToString(errs[k].0) + ": " + Message(errs[k].1));
    Join(Summary(messages), "\n")
  }

  /** `generate(command:)`: the particles of all lines when every line is
      accepted, otherwise the report of every rejected line and no
      particles at all. */
  method Generate(command: string, colorOf: string -> Option<Color>, parseFloat: string -> Option<real>)
    returns (r: Result<seq<Particle>, string>)
    ensures var outs := Outcomes(command, colorOf, parseFloat);
      r.Ok? <==> forall i :: 0 <= i < |outs| ==> outs[i].Ok?
    ensures r.Ok? ==> r.value == ParticlesOf(Outcomes(command, colorOf, parseFloat))
    ensures r.Err? ==> r.error == Report(ErrorsOf(Outcomes(command, colorOf, parseFloat)))
  {
    var lines := Split(command, Newlines);
    ghost var outs := Outcomes(command, colorOf, parseFloat);
    var particles: seq<Particle> := [];
    var errors: seq<(nat, LineError)> := [];
    var i := 0;
    while i < |lines|
      invariant 0 <= i <= |lines|
      invariant particles == ParticlesOf(outs[..i])
      invariant errors == ErrorsOf(outs[..i])
    {
      var lineNumber := i + 1;
      var out := ProcessLine(lines[i], colorOf, parseFloat);
      assert out == outs[i];
      ParticlesOfSnoc(outs, i);
      ErrorsOfSnoc(outs, i);
      if out.Err? {
        errors := errors + [(lineNumber, out.error)];
      } else if out.value.Some? {
        particles := particles + [out.value.value];
      }
      i := i + 1;
    }
    assert outs[..i] == outs;
    ErrorsOfComplete(outs);
    if errors != [] {
      return Err(Report(errors));
    }
    return Ok(particles);
  }

  /** With no rejected line there is one particle per non-blank line. */
  lemma {:induction false} OneParticlePerCommandLine(outs: seq<Result<Option<Particle>, LineError>>)
    requires forall i :: 0 <= i < |outs| ==> outs[i].Ok?
    ensures |ParticlesOf(outs)| == |outs| - BlankCount(outs)
  {
    if |outs| > 0 {
      OneParticlePerCommandLine(outs[..|outs| - 1]);
    }
  }

  /** The number of lines that produced nothing. */
  function BlankCount(outs: seq<Result<Option<Particle>, LineError>>): nat
  {
    if |outs| == 0 then 0
    else BlankCount(outs[..|outs| - 1]) + (if outs[|outs| - 1] == Ok(None) then 1 else 0)
  }
}
