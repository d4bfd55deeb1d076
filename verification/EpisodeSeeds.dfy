/** Where the operands and keys of a round come from: each has a seed of its own. */
module EpisodeSeeds {
  import opened Arith
  import opened Bytes
  import opened Extract
  import opened Expand
  import opened Gemm
  import opened Recall
  import opened Episode
  import opened Seeds

  // ---------------------------------------------------------------- tags

  lemma {:induction false} DecimalInjective(a: nat, b: nat)
    requires Decimal(a) == Decimal(b)
    ensures a == b
  {
    var x, y := Decimal(a), Decimal(b);
    if a < 10 || b < 10 {
      OneDigit(a);
      OneDigit(b);
      DigitInjective(a % 10, b % 10);
    } else {
      assert x[..|x| - 1] == Decimal(a / 10) && y[..|y| - 1] == Decimal(b / 10);
      assert x[|x| - 1] == "0123456789"[a % 10] && y[|y| - 1] == "0123456789"[b % 10];
      DigitInjective(a % 10, b % 10);
      DecimalInjective(a / 10, b / 10);
    }
  }

  lemma OneDigit(a: nat)
    ensures |Decimal(a)| == 1 <==> a < 10
    ensures |Decimal(a)| >= 1
    ensures a < 10 ==> Decimal(a)[0] == "0123456789"[a % 10]
  {
    if a >= 10 { OneDigit(a / 10); }
  }

  lemma DigitInjective(a: nat, b: nat)
    requires a < 10 && b < 10 && "0123456789"[a] == "0123456789"[b]
    ensures a == b
  {
  }

  /** Different layers have different tags. */
  lemma LayerTagInjective(prefix: string, l: nat, m: nat)
    requires LayerTag(prefix, l) == LayerTag(prefix, m)
    ensures l == m
  {
    SplitBehind(prefix + Decimal(l), prefix + Decimal(m), "_V1");
    SplitEqual(prefix, Decimal(l), prefix, Decimal(m));
    DecimalInjective(l, m);
  }

  lemma SplitBehind<T>(a: seq<T>, b: seq<T>, x: seq<T>)
    requires a + x == b + x
    ensures a == b
  {
    assert |a| == |b|;
    SplitEqual(a, x, b, x);
  }

  predicate IsAscii(s: string) { forall k :: 0 <= k < |s| ==> s[k] as int < 128 }

  lemma {:induction false} DecimalIsAscii(n: nat)
    ensures IsAscii(Decimal(n))
  {
    if n >= 10 { DecimalIsAscii(n / 10); }
  }

  lemma AsciiInjective(s: string, t: string)
    requires IsAscii(s) && IsAscii(t) && Ascii(s) == Ascii(t)
    ensures s == t
  {
    assert |s| == |t|;
    forall k | 0 <= k < |s| ensures s[k] == t[k] { assert Ascii(s)[k] == Ascii(t)[k]; }
  }

  /** What a round needs a seed for. */
  datatype Role = Query | Key | Value | ScorePrf | RecallPrf | First
    | Up(layer: nat) | Down(layer: nat) | UpPrf(layer: nat) | DownPrf(layer: nat)

  /** The shared profile draws these from the header, one pair of weights for all layers. */
  predicate IsShared(p: EpisodeParams, r: Role) { p.shareEp && (r.Key? || r.Value? || r.Up? || r.Down?) }

  function TagOf(p: EpisodeParams, r: Role): string {
    match r
    case Query => "BTX_RC_Q_V1"
    case Key => "BTX_RC_KV_K_V1"
    case Value => "BTX_RC_KV_V_V1"
    case ScorePrf => "BTX_RC_PRF_S_V1"
    case RecallPrf => "BTX_RC_PRF_Z_V1"
    case First => "BTX_RC_X0_V1"
    case Up(l) => if p.shareEp then "BTX_RC_WUP_V1" else LayerTag("BTX_RC_WUP_", l)
    case Down(l) => if p.shareEp then "BTX_RC_WDN_V1" else LayerTag("BTX_RC_WDN_", l)
    case UpPrf(l) => LayerTag("BTX_RC_PRF_UP_", l)
    case DownPrf(l) => LayerTag("BTX_RC_PRF_DN_", l)
  }

  function SeedOf(sha: Hash, sigma: Digest, seedR: Digest, p: EpisodeParams, r: Role): Digest {
    OperandSeed(sha, if IsShared(p, r) then sigma else seedR, TagOf(p, r))
  }

  function Kind(r: Role): nat {
    match r
    case Query => 0 case Key => 1 case Value => 2 case ScorePrf => 3 case RecallPrf => 4 case First => 5
    case Up(_) => 6 case Down(_) => 7 case UpPrf(_) => 8 case DownPrf(_) => 9
  }

  /** The kind of a role, read off its tag. */
  function KindOf(t: string): nat
    requires |t| >= 11
  {
    if t[7] == 'Q' then 0 else if t[7] == 'X' then 5
    else if t[7] == 'K' then (if t[10] == 'K' then 1 else 2)
    else if t[7] == 'W' then (if t[8] == 'U' then 6 else 7)
    else if |t| == 11 then 10
    else if t[11] == 'S' then 3 else if t[11] == 'Z' then 4 else if t[11] == 'U' then 8 else 9
  }

  lemma TagTells(p: EpisodeParams, r: Role)
    ensures |TagOf(p, r)| >= 11 && KindOf(TagOf(p, r)) == Kind(r)
  {
    hide Decimal;
  }

  lemma LayerTagIsAscii(prefix: string, l: nat)
    requires IsAscii(prefix)
    ensures IsAscii(LayerTag(prefix, l))
  {
    DecimalIsAscii(l);
    hide Decimal;
  }

  lemma TagIsAscii(p: EpisodeParams, r: Role)
    ensures IsAscii(TagOf(p, r))
  {
    match r
    case Up(l) => LayerTagIsAscii("BTX_RC_WUP_", l);
    case Down(l) => LayerTagIsAscii("BTX_RC_WDN_", l);
    case UpPrf(l) => LayerTagIsAscii("BTX_RC_PRF_UP_", l);
    case DownPrf(l) => LayerTagIsAscii("BTX_RC_PRF_DN_", l);
    case _ =>
  }

  /** Equal tags mean equal roles, but for the weights all layers share. */
  lemma TagsApart(p: EpisodeParams, a: Role, b: Role)
    requires TagOf(p, a) == TagOf(p, b)
    ensures a == b || (p.shareEp && ((a.Up? && b.Up?) || (a.Down? && b.Down?)))
  {
    TagTells(p, a);
    TagTells(p, b);
    hide LayerTag, KindOf;
    match a
    case Up(l) => if !p.shareEp { LayerTagInjective("BTX_RC_WUP_", l, b.layer); }
    case Down(l) => if !p.shareEp { LayerTagInjective("BTX_RC_WDN_", l, b.layer); }
    case UpPrf(l) => LayerTagInjective("BTX_RC_PRF_UP_", l, b.layer);
    case DownPrf(l) => LayerTagInjective("BTX_RC_PRF_DN_", l, b.layer);
    case _ =>
  }

  // ---------------------------------------------------------------- seeds

  function OperandPreimage(seed: Digest, tag: string): seq<byte> { Ascii(tag) + seed }

  /** An operand's seed commits to the seed it is derived from and to its tag. */
  lemma OperandSeedBinds(sha: Hash, seed: Digest, tag: string, seed': Digest, tag': string)
    requires IsAscii(tag) && IsAscii(tag') && OperandSeed(sha, seed, tag) == OperandSeed(sha, seed', tag')
    ensures (seed == seed' && tag == tag') || IsShaCollision(sha, OperandPreimage(seed, tag), OperandPreimage(seed', tag'))
  {
    hide Ascii;
    if OperandPreimage(seed, tag) == OperandPreimage(seed', tag') {
      assert |Ascii(tag)| == |Ascii(tag')|;
      SplitEqual(Ascii(tag), seed, Ascii(tag'), seed');
      AsciiInjective(tag, tag');
    }
  }

  function PreimageOf(sigma: Digest, seedR: Digest, p: EpisodeParams, r: Role): seq<byte> {
    OperandPreimage(if IsShared(p, r) then sigma else seedR, TagOf(p, r))
  }

  /** No two operands or keys of a round are drawn from one seed, but for the weights that all layers share
      in the shared profile; or the hash collides. */
  lemma RolesApart(sha: Hash, sigma: Digest, seedR: Digest, p: EpisodeParams, a: Role, b: Role)
    requires SeedOf(sha, sigma, seedR, p, a) == SeedOf(sha, sigma, seedR, p, b)
    ensures a == b || (p.shareEp && ((a.Up? && b.Up?) || (a.Down? && b.Down?))) ||
            IsShaCollision(sha, PreimageOf(sigma, seedR, p, a), PreimageOf(sigma, seedR, p, b))
  {
    TagIsAscii(p, a);
    TagIsAscii(p, b);
    hide TagOf;
    OperandSeedBinds(sha, if IsShared(p, a) then sigma else seedR, TagOf(p, a),
                     if IsShared(p, b) then sigma else seedR, TagOf(p, b));
    if TagOf(p, a) == TagOf(p, b) { TagsApart(p, a, b); }
  }

  /** Two rounds of one header draw an operand from the same seed exactly when it is shared or the rounds
      have one seed; or the hash collides. */
  lemma RoundsApart(sha: Hash, sigma: Digest, seedR: Digest, seedR': Digest, p: EpisodeParams, r: Role)
    ensures (SeedOf(sha, sigma, seedR, p, r) == SeedOf(sha, sigma, seedR', p, r) <==> IsShared(p, r) || seedR == seedR') ||
            IsShaCollision(sha, PreimageOf(sigma, seedR, p, r), PreimageOf(sigma, seedR', p, r))
  {
    TagIsAscii(p, r);
    hide TagOf;
    if SeedOf(sha, sigma, seedR, p, r) == SeedOf(sha, sigma, seedR', p, r) && !IsShared(p, r) {
      OperandSeedBinds(sha, seedR, TagOf(p, r), seedR', TagOf(p, r));
    }
  }

  // ---------------------------------------------------------------- the seeds a round uses

  /** Phase 1 draws its three operands and two keys from their own seeds. */
  lemma RecallUses(pr: Primitives, sigma: Digest, seedR: Digest, p: EpisodeParams)
    requires Productive(pr)
    ensures RecallOf(pr, sigma, seedR, p) == Materialised(pr,
      PrfKey(pr.sha, SeedOf(pr.sha, sigma, seedR, p, ScorePrf)), PrfKey(pr.sha, SeedOf(pr.sha, sigma, seedR, p, RecallPrf)),
      Operand(pr.sha, SeedOf(pr.sha, sigma, seedR, p, Query), p.nQ, p.dHead),
      Operand(pr.sha, SeedOf(pr.sha, sigma, seedR, p, Key), p.nCtx, p.dHead),
      Operand(pr.sha, SeedOf(pr.sha, sigma, seedR, p, Value), p.nCtx, p.dHead), p.nQ, p.nCtx, p.dHead)
  {
    hide Materialised, Operand, Productive, OperandSeed, PrfKey;
  }

  /** So does every layer of phase 2 its two operands and two keys. */
  lemma LayerUses(pr: Primitives, sigma: Digest, seedR: Digest, p: EpisodeParams, l: nat)
    requires Productive(pr)
    ensures Activations(pr, sigma, seedR, p, l + 1) == Layer(pr, Activations(pr, sigma, seedR, p, l),
      Operand(pr.sha, SeedOf(pr.sha, sigma, seedR, p, Up(l)), p.dModel, p.dFf),
      Operand(pr.sha, SeedOf(pr.sha, sigma, seedR, p, Down(l)), p.dFf, p.dModel),
      PrfKey(pr.sha, SeedOf(pr.sha, sigma, seedR, p, UpPrf(l))), PrfKey(pr.sha, SeedOf(pr.sha, sigma, seedR, p, DownPrf(l))), p)
  {
    hide Layer, Operand, Productive, OperandSeed, PrfKey, LayerTag, FirstOperand;
  }

  /** The first operand is drawn from its own, whole or, short of the rows behind the last block, by block. */
  lemma FirstUses(pr: Primitives, sigma: Digest, seedR: Digest, p: EpisodeParams)
    requires Productive(pr)
    ensures Activations(pr, sigma, seedR, p, 0) ==
      if p.rowblockX0
      then RowBlocks(pr, SeedOf(pr.sha, sigma, seedR, p, First), p.dModel, p.bSeq / BLOCK)
           + ZeroTail(RowStart(p.bSeq % BLOCK, p.dModel))
      else Operand(pr.sha, SeedOf(pr.sha, sigma, seedR, p, First), p.bSeq, p.dModel)
  {
    hide RowBlocks, Operand, Productive, OperandSeed, ZeroTail, RowStart;
  }
}
