/**
 * Oversampling resolution (renpy/display/video.py:295-354) and the loader
 * check on play sources (renpy/display/video.py:511-524).
 *
 * An oversampled movie file carries its factor in its name: `clip@2.webm`
 * is twice the logical size. When automatic oversampling is on and the
 * screen draws more than one pixel per virtual pixel, the file `clip.webm`
 * is replaced by the largest loadable `clip@N.webm`.
 */
module Oversample {
  import opened Wrappers
  import opened PyStr
  import opened Settings

  /** A `play` or `mask` argument: one path, or a list of alternatives. */
  datatype Source = File(name: string) | Files(names: seq<string>)

  /** Python truthiness of an optional source: None, "" and [] are false. */
  predicate Truthy(s: Option<Source>)
  {
    s.Some? && match s.value
               case File(n) => n != []
               case Files(l) => l != []
  }

  /** What `renpy.audio.music.play` receives: a string stands for a one-element list. */
  function FileList(s: Source): seq<string>
  {
    match s
    case File(n) => [n]
    case Files(l) => l
  }

  /**
   * The name `any_loadable` looks up for a single string: the match of
   * `<.*>(.*)$` removes a leading `<...>` loader directive, up to the last
   * `>`. `.` does not match a newline and `$` also matches before a final
   * newline, which is why newlines are handled here.
   */
  function StripLoaderPrefix(name: string): (r: string)
    ensures (|name| == 0 || name[0] != '<') ==> r == name
    ensures '\n' !in name && |name| > 0 && name[0] == '<' && '>' in name[1..] ==>
              |r| < |name| && name[|name| - |r|..] == r && name[|name| - |r| - 1] == '>' && '>' !in r
    ensures '\n' !in name && !(|name| > 0 && name[0] == '<' && '>' in name[1..]) ==> r == name
  {
    if |name| == 0 || name[0] != '<' then name
    else
      var body := name[1..];
      var core := if |body| > 0 && body[|body| - 1] == '\n' then body[..|body| - 1] else body;
      if '\n' in core then name
      else
        var p := RPartition(core, '>');
        if p.found then
          LoaderParts(name, core, p);
          p.after
        else name
  }

  /** Without a newline, the name is its `<` followed by the parts around its last `>`. */
  lemma LoaderParts(name: string, core: string, p: Parts)
    requires |name| > 0 && p.found && core == p.before + ['>'] + p.after
    requires core == name[1..] || (|name| >= 2 && name[|name| - 1] == '\n' && core == name[1..|name| - 1])
    ensures '\n' !in name ==> name == [name[0]] + p.before + ['>'] + p.after
  {
    if '\n' !in name {
      assert name[|name| - 1] in name;
      assert name == [name[0]] + name[1..];
    }
  }

  /** Two ways of cutting `s` after a `>` with no `>` in the rest cut at the same place. */
  lemma SuffixAfterLastGt(s: string, r: string, b: string)
    requires |r| < |s| && s[|s| - |r|..] == r && s[|s| - |r| - 1] == '>' && '>' !in r
    requires |b| < |s| && s[|s| - |b|..] == b && s[|s| - |b| - 1] == '>' && '>' !in b
    ensures r == b
  {
    if |r| < |b| {
      assert false;
    } else if |r| > |b| {
      assert false;
    }
  }

  /** The loader directive `<a>` is removed from `<a>b` when `b` holds no `>`. */
  lemma LoaderPrefixStripped(a: string, b: string)
    requires '\n' !in "<" + a + ">" + b && '>' !in b
    ensures StripLoaderPrefix("<" + a + ">" + b) == b
  {
    var n := "<" + a + ">" + b;
    assert n[1..] == a + ">" + b;
    assert n[1..][|a|] == '>';
    assert n[|n| - |b|..] == b;
    assert n[|n| - |b| - 1] == '>';
    SuffixAfterLastGt(n, StripLoaderPrefix(n), b);
  }

  /**
   * `Movie.any_loadable`: a string is checked after removing its loader
   * directive, a list is loadable when one of its entries is (the entries are
   * checked as they are).
   */
  function AnyLoadable(src: Source, loadable: set<string>): (r: bool)
    ensures src.Files? ==> (r <==> exists i :: 0 <= i < |src.names| && src.names[i] in loadable)
    ensures src.File? && (|src.name| == 0 || src.name[0] != '<') ==> (r <==> src.name in loadable)
  {
    match src
    case File(n) => StripLoaderPrefix(n) in loadable
    case Files(l) => exists i :: 0 <= i < |l| && l[i] in loadable
  }

  /** A single name written `<a>b` is loadable exactly when `b` is. */
  lemma AnyLoadableWithDirective(a: string, b: string, loadable: set<string>)
    requires '\n' !in "<" + a + ">" + b && '>' !in b
    ensures AnyLoadable(File("<" + a + ">" + b), loadable) <==> b in loadable
  {
    LoaderPrefixStripped(a, b);
  }

  predicate IsPow2(n: nat)
    decreases n
  {
    n == 1 || (n >= 2 && n % 2 == 0 && IsPow2(n / 2))
  }

  /** Doubling from the power of two `p` until it reaches `x`. */
  function Pow2From(x: real, p: nat): (r: nat)
    requires IsPow2(p)
    requires p == 1 || ((p / 2) as real) < x
    ensures IsPow2(r) && x <= r as real && r >= p
    ensures r == 1 || ((r / 2) as real) < x
    decreases if x <= p as real then 0 else x.Floor - p + 1
  {
    if x <= p as real then p
    else
      assert IsPow2(2 * p) by { assert (2 * p) / 2 == p; }
      Pow2From(x, 2 * p)
  }

  /** `2 ** ceil(log2(x))`, computed exactly: the least power of two that is at least `x`. */
  function SmallestPow2AtLeast(x: real): (r: nat)
    ensures IsPow2(r) && x <= r as real
    ensures r == 1 || ((r / 2) as real) < x
  {
    Pow2From(x, 1)
  }

  /** Automatic oversampling is attempted only for a name without `@`, when it is enabled and the draw scale exceeds 1. */
  predicate SearchApplies(filename: string, cfg: Config)
    ensures SearchApplies(filename, cfg) ==> '@' !in filename && cfg.automaticOversampling > 0 && cfg.drawPerVirt.Some?
    ensures SearchApplies(filename, cfg) ==> cfg.drawPerVirt.value > 1.0
  {
    '@' !in filename && cfg.automaticOversampling > 0 && cfg.drawPerVirt.Some? && cfg.drawPerVirt.value > 1.0
  }

  /** The first multiplier tried: the draw scale rounded up to a power of two, capped by the configured maximum. */
  function MaxOversample(cfg: Config): (r: nat)
    requires cfg.drawPerVirt.Some?
    ensures r <= cfg.automaticOversampling && r <= SmallestPow2AtLeast(cfg.drawPerVirt.value)
    ensures r == cfg.automaticOversampling || r == SmallestPow2AtLeast(cfg.drawPerVirt.value)
    ensures cfg.drawPerVirt.value > 1.0 && cfg.automaticOversampling >= 2 ==> r >= 2
  {
    var p := SmallestPow2AtLeast(cfg.drawPerVirt.value);
    if p < cfg.automaticOversampling then p else cfg.automaticOversampling
  }

  /** The pieces of a name that candidates are built from: `base@extras.ext`. */
  datatype Pattern = Pattern(base: string, extras: string, ext: string)

  function PatternOf(filename: string): (pat: Pattern)
    ensures '.' !in pat.ext
    ensures pat.extras == [] || pat.extras[0] == ','
    ensures '.' !in filename ==> pat == Pattern([], [], filename)
    ensures '@' !in filename && '.' in filename ==> filename == pat.base + "." + pat.ext && pat.extras == []
  {
    var p := RPartition(filename, '.');
    var q := Partition(p.before, '@');
    Pattern(q.before, if q.after != [] then "," + q.after else [], p.after)
  }

  /** `f"{base}@{i}{extras}.{ext}"`. */
  function Candidate(pat: Pattern, i: nat): (r: string)
    ensures |r| > |pat.base| && r[..|pat.base|] == pat.base && r[|pat.base|] == '@'
    ensures |r| > |pat.ext| && r[|r| - |pat.ext|..] == pat.ext && r[|r| - |pat.ext| - 1] == '.'
  {
    pat.base + "@" + NatToString(i) + pat.extras + "." + pat.ext
  }

  predicate CandidateLoadable(pat: Pattern, i: nat, loadable: set<string>)
  {
    AnyLoadable(File(Candidate(pat, i)), loadable)
  }

  /** No multiplier in (lo, hi] has a loadable candidate. */
  predicate NoneLoadable(pat: Pattern, lo: int, hi: int, loadable: set<string>)
  {
    forall j: nat :: lo < j <= hi ==> !CandidateLoadable(pat, j, loadable)
  }

  lemma NoneLoadableExtend(pat: Pattern, lo: int, hi: nat, loadable: set<string>)
    requires NoneLoadable(pat, lo, hi - 1, loadable) && !CandidateLoadable(pat, hi, loadable)
    ensures NoneLoadable(pat, lo, hi, loadable)
  {
    forall j: nat | lo < j <= hi
      ensures !CandidateLoadable(pat, j, loadable)
    {
      if j < hi {
        assert lo < j <= hi - 1;
      }
    }
  }

  /** The largest multiplier in [2, i] whose candidate is loadable, searching downwards. */
  function FirstLoadable(pat: Pattern, i: int, loadable: set<string>): (r: Option<nat>)
    ensures r.Some? ==> 2 <= r.value <= i && CandidateLoadable(pat, r.value, loadable)
    ensures r.Some? ==> NoneLoadable(pat, r.value, i, loadable)
    ensures r.None? ==> NoneLoadable(pat, 1, i, loadable)
    decreases i
  {
    if i < 2 then None
    else if CandidateLoadable(pat, i, loadable) then Some(i)
    else
      var r := FirstLoadable(pat, i - 1, loadable);
      NoneLoadableExtend(pat, if r.Some? then r.value else 1, i, loadable);
      r
  }

  /**
   * `find_oversampled_filename`: the name unchanged unless the search applies;
   * otherwise the candidate with the largest loadable multiplier, or the name
   * unchanged when none is loadable.
   */
  function OversampledFilename(filename: string, cfg: Config, loadable: set<string>): (r: string)
    ensures !SearchApplies(filename, cfg) ==> r == filename
    ensures SearchApplies(filename, cfg) ==>
              || (r == filename &&
                  forall j: nat :: 2 <= j <= MaxOversample(cfg) ==> !CandidateLoadable(PatternOf(filename), j, loadable))
              || (exists i: nat :: 2 <= i <= MaxOversample(cfg) && r == Candidate(PatternOf(filename), i) &&
                    CandidateLoadable(PatternOf(filename), i, loadable) &&
                    forall j: nat :: i < j <= MaxOversample(cfg) ==> !CandidateLoadable(PatternOf(filename), j, loadable))
  {
    if !SearchApplies(filename, cfg) then filename
    else
      match FirstLoadable(PatternOf(filename), MaxOversample(cfg), loadable)
      case None => filename
      case Some(i) => Candidate(PatternOf(filename), i)
  }

  /** The search loop of `find_oversampled_filename`, from the largest multiplier down to 2. */
  method FindOversampledFilename(filename: string, cfg: Config, loadable: set<string>) returns (r: string)
    ensures r == OversampledFilename(filename, cfg, loadable)
  {
    r := filename;
    if SearchApplies(filename, cfg) {
      var maxOversample := MaxOversample(cfg);
      var pat := PatternOf(filename);
      var i := maxOversample;
      while i > 1
        invariant i <= maxOversample
        invariant r == filename
        invariant FirstLoadable(pat, i, loadable) == FirstLoadable(pat, maxOversample, loadable)
      {
        var candidate := Candidate(pat, i);
        if AnyLoadable(File(candidate), loadable) {
          r := candidate;
          break;
        }
        i := i - 1;
      }
    }
  }

  /** On the search path the name has no `@`, so no extras are carried into the candidates. */
  lemma ExtrasEmptyWhenSearching(filename: string, cfg: Config)
    requires SearchApplies(filename, cfg)
    ensures PatternOf(filename).extras == []
  {
    var p := RPartition(filename, '.');
    assert '@' !in p.before by {
      if p.found { assert filename == p.before + ['.'] + p.after; }
    }
  }

  /** The tokens `find_oversampled` parses: between the last `@` and the next `/` of what precedes the last `.`, split at commas. */
  function ModifierTokens(filename: string): (r: seq<string>)
    ensures |r| >= 1
  {
    Split(Partition(RPartition(RPartition(filename, '.').before, '@').after, '/').before, ',')
  }

  /**
   * The token loop of `find_oversampled`: every token must parse, the first
   * that does not is reported, and the last one gives the factor.
   */
  function LastModifier(tokens: seq<string>, current: real): (r: Result<real, string>)
    ensures r.Ok? <==> AllParse(tokens)
    ensures r.Ok? && |tokens| > 0 ==> r.value == ParseDecimal(tokens[|tokens| - 1]).value
    ensures r.Ok? && |tokens| == 0 ==> r.value == current
    ensures r.Err? ==> r.error in tokens && ParseDecimal(r.error).None?
    decreases |tokens|
  {
    if tokens == [] then Ok(current)
    else
      match ParseDecimal(tokens[0])
      case None => Err(tokens[0])
      case Some(v) => LastModifier(tokens[1..], v)
  }

  predicate AllParse(tokens: seq<string>)
  {
    forall i :: 0 <= i < |tokens| ==> ParseDecimal(tokens[i]).Some?
  }

  /** The token reported is the first one that does not parse. */
  lemma {:induction false} LastModifierReportsFirstBad(tokens: seq<string>, current: real, k: nat)
    requires k < |tokens| && ParseDecimal(tokens[k]).None?
    requires forall j :: 0 <= j < k ==> ParseDecimal(tokens[j]).Some?
    ensures LastModifier(tokens, current) == Err(tokens[k])
    decreases k
  {
    if k > 0 {
      LastModifierReportsFirstBad(tokens[1..], ParseDecimal(tokens[0]).value, k - 1);
    }
  }

  /** The exception `find_oversampled` raises: "Unknown movie modifier %r in %r." */
  datatype ModifierError = UnknownModifier(token: string, filename: string)

  /** What `find_oversampled` returns (the source to play) and stores (the factor). */
  datatype Oversampled = Oversampled(source: Source, oversample: real)

  /**
   * `find_oversampled(new, filename)` apart from the assignment to
   * `new.playing_oversample`: an explicit factor is used verbatim, a list
   * gives 1, a string is searched and then its `@` modifiers are parsed.
   */
  function OversampledSource(explicit: Option<real>, src: Source, cfg: Config, loadable: set<string>)
    : (r: Result<Oversampled, ModifierError>)
    ensures explicit.Some? ==> r == Ok(Oversampled(src, explicit.value))
    ensures explicit.None? && src.Files? ==> r == Ok(Oversampled(src, 1.0))
    ensures explicit.None? && src.File? && '@' !in OversampledFilename(src.name, cfg, loadable) ==>
              r == Ok(Oversampled(File(OversampledFilename(src.name, cfg, loadable)), 1.0))
    ensures explicit.None? && r.Ok? ==> r.value.oversample >= 0.0
    ensures explicit.None? && src.File? && r.Ok? && '@' in OversampledFilename(src.name, cfg, loadable) ==>
              var f := OversampledFilename(src.name, cfg, loadable);
              r.value.source == File(if f[0] == '<' then Partition(f, '>').after else f)
    ensures r.Err? ==> explicit.None? && src.File? && '@' in OversampledFilename(src.name, cfg, loadable)
  {
    if explicit.Some? then Ok(Oversampled(src, explicit.value))
    else if src.Files? then Ok(Oversampled(src, 1.0))
    else
      var f := OversampledFilename(src.name, cfg, loadable);
      if '@' !in f then Ok(Oversampled(File(f), 1.0))
      else
        var g := if f[0] == '<' then Partition(f, '>').after else f;
        match LastModifier(ModifierTokens(g), 1.0)
        case Ok(v) =>
          assert v >= 0.0 by {
            var t := ModifierTokens(g);
            assert ParseDecimal(t[|t| - 1]).Some?;
          }
          Ok(Oversampled(File(g), v))
        case Err(tok) => Err(UnknownModifier(tok, g))
  }

  /**
   * On the `@` path the factor is the last modifier of the name (after any
   * `<...>` prefix is cut), and an unknown modifier is the error, naming
   * that token and that name.
   */
  lemma OversampledSourceModifier(src: Source, cfg: Config, loadable: set<string>)
    requires src.File? && '@' in OversampledFilename(src.name, cfg, loadable)
    ensures var r := OversampledSource(None, src, cfg, loadable);
            var f := OversampledFilename(src.name, cfg, loadable);
            var g := if f[0] == '<' then Partition(f, '>').after else f;
            var t := LastModifier(ModifierTokens(g), 1.0);
            && (r.Ok? <==> t.Ok?)
            && (r.Ok? ==> r.value == Oversampled(File(g), t.value))
            && (r.Err? ==> r.error == UnknownModifier(t.error, g))
  {
  }

  /** `rpartition` cuts at the separator that has none after it. */
  lemma RPartitionAt(x: string, c: char, y: string)
    requires c !in y
    ensures RPartition(x + [c] + y, c) == Parts(x, true, y)
  {
    var s := x + [c] + y;
    assert s[|x|] == c;
    var i := LastIndexOf(s, c);
    if i.value != |x| {
      assert false;
    }
    assert s[..|x|] == x && s[|x| + 1..] == y;
  }

  /** The digits of `str(i)` hold none of the separators the modifier parser cuts at. */
  lemma DigitsHaveNoSeparators(i: nat)
    ensures var d := NatToString(i); '.' !in d && '@' !in d && '/' !in d && ',' !in d && '<' !in d
  {
    var d := NatToString(i);
    forall k | 0 <= k < |d| ensures IsDigit(d[k]) { }
  }

  /** The tokens of a candidate `base@N.ext` built from a name without `@` are exactly `[str(N)]`. */
  lemma {:induction false} CandidateTokens(pat: Pattern, i: nat)
    requires '@' !in pat.base && '.' !in pat.ext && pat.extras == []
    ensures ModifierTokens(Candidate(pat, i)) == [NatToString(i)]
  {
    var digits := NatToString(i);
    DigitsHaveNoSeparators(i);
    var stem := pat.base + ['@'] + digits;
    assert Candidate(pat, i) == stem + ['.'] + pat.ext;
    RPartitionAt(stem, '.', pat.ext);
    RPartitionAt(pat.base, '@', digits);
    assert Partition(digits, '/').before == digits;
    assert Split(digits, ',') == [digits];
  }

  /** A name found by the search has no `@` before its last `.` and none after it. */
  lemma {:induction false} SearchPattern(filename: string, cfg: Config)
    requires SearchApplies(filename, cfg)
    ensures '@' !in PatternOf(filename).base && '.' !in PatternOf(filename).ext && PatternOf(filename).extras == []
    ensures PatternOf(filename).base == RPartition(filename, '.').before
  {
    var p := RPartition(filename, '.');
    assert '@' !in p.before by {
      if p.found { assert filename == p.before + ['.'] + p.after; }
    }
  }

  /**
   * Round trip of the naming convention: the candidate `base@N.ext` built by
   * the search parses back to exactly N, and that candidate is what is played.
   */
  lemma {:induction false} CandidateRoundTrip(filename: string, cfg: Config, loadable: set<string>, i: nat)
    requires SearchApplies(filename, cfg)
    requires |filename| == 0 || filename[0] != '<'
    requires FirstLoadable(PatternOf(filename), MaxOversample(cfg), loadable) == Some(i)
    ensures OversampledFilename(filename, cfg, loadable) == Candidate(PatternOf(filename), i)
    ensures OversampledSource(None, File(filename), cfg, loadable) ==
              Ok(Oversampled(File(Candidate(PatternOf(filename), i)), i as real))
  {
    var pat := PatternOf(filename);
    SearchPattern(filename, cfg);
    CandidateTokens(pat, i);
    var cand := Candidate(pat, i);
    assert cand[0] != '<' by {
      if |pat.base| == 0 { assert cand[0] == '@'; } else { assert cand[0] == pat.base[0] == filename[0]; }
    }
    assert '@' in cand by { assert cand[|pat.base|] == '@'; }
    CandidatePlayed(filename, cfg, loadable, cand, i);
  }

  /** A found name `cand` whose only modifier is `str(i)` is played as it is, with factor i. */
  lemma CandidatePlayed(filename: string, cfg: Config, loadable: set<string>, cand: string, i: nat)
    requires OversampledFilename(filename, cfg, loadable) == cand
    requires '@' in cand && cand[0] != '<' && ModifierTokens(cand) == [NatToString(i)]
    ensures OversampledSource(None, File(filename), cfg, loadable) == Ok(Oversampled(File(cand), i as real))
  {
    ParseNatToString(i);
    assert LastModifier([NatToString(i)], 1.0) == Ok(i as real);
  }

  /**
   * At a draw scale of 2.3 with a configured maximum of 4, the search starts
   * at 4 (the next power of two); when only the `@2` file exists it is chosen.
   */
  lemma {:induction false} ScaleExample(filename: string, loadable: set<string>)
    requires '@' !in filename
    requires !CandidateLoadable(PatternOf(filename), 4, loadable)
    requires !CandidateLoadable(PatternOf(filename), 3, loadable)
    requires CandidateLoadable(PatternOf(filename), 2, loadable)
    ensures var cfg := Config(4, Some(2.3), "", false, false, false, false);
            MaxOversample(cfg) == 4 && OversampledFilename(filename, cfg, loadable) == Candidate(PatternOf(filename), 2)
  {
    var p := SmallestPow2AtLeast(2.3);
    assert p <= 5;
    assert p != 3 && p != 5 by {
      assert !IsPow2(3);
      assert !IsPow2(5);
    }
    assert p == 4;
    var pat := PatternOf(filename);
    assert FirstLoadable(pat, 4, loadable) == FirstLoadable(pat, 3, loadable) == FirstLoadable(pat, 2, loadable) == Some(2);
  }
}
