/**
 * Public identifiers: 8 characters drawn from a 62-symbol alphabet, allocated
 * by drawing candidates and taking the first one not already in use, with a
 * budget of 10 draws.  `Math.random()` is replaced by caller-supplied draws,
 * each a real number in [0, 1).
 */
module PublicIds {
  import opened Common

  const AlphabetSize: nat := 62
  const IdLength: nat := 8
  const MaxAttempts: nat := 10

  /** The symbol at position `k` of the alphabet. */
  function Symbol(k: nat): char
    requires k < AlphabetSize
  {
    if k < 26 then ('A' as int + k) as char
    else if k < 52 then ('a' as int + k - 26) as char
    else ('0' as int + k - 52) as char
  }

  /** The 62 symbols `A`-`Z`, `a`-`z`, `0`-`9`, in that order. */
  const Alphabet: string := seq(AlphabetSize, k requires 0 <= k < AlphabetSize => Symbol(k))

  /** An ASCII letter or digit. */
  predicate IsAlphanumeric(c: char) {
    ('A' <= c <= 'Z') || ('a' <= c <= 'z') || ('0' <= c <= '9')
  }

  /** The alphabet holds 62 distinct symbols, each an ASCII letter or digit. */
  lemma AlphabetShape()
    ensures |Alphabet| == AlphabetSize
    ensures forall k :: 0 <= k < |Alphabet| ==> IsAlphanumeric(Alphabet[k])
    ensures forall j, k :: 0 <= j < k < |Alphabet| ==> Alphabet[j] != Alphabet[k]
  {
    forall k | 0 <= k < AlphabetSize ensures IsAlphanumeric(Alphabet[k]) {
      assert Alphabet[k] == Symbol(k);
    }
    forall j, k | 0 <= j < k < AlphabetSize ensures Alphabet[j] != Alphabet[k] {
      assert Alphabet[j] == Symbol(j) && Alphabet[k] == Symbol(k);
    }
  }

  /** Eight alphabet symbols. */
  predicate IsPublicId(s: string) {
    |s| == IdLength && forall i :: 0 <= i < |s| ==> IsAlphanumeric(s[i])
  }

  /** A value `Math.random()` can return. */
  predicate IsDraw(r: real) {
    0.0 <= r < 1.0
  }

  /** The draws one `generateId` call consumes. */
  predicate IsDrawBatch(d: seq<real>) {
    |d| == IdLength && forall i :: 0 <= i < |d| ==> IsDraw(d[i])
  }

  /** Enough randomness for the whole retry budget. */
  predicate IsRandomSupply(draws: seq<seq<real>>) {
    |draws| == MaxAttempts && forall i :: 0 <= i < |draws| ==> IsDrawBatch(draws[i])
  }

  /** `Math.floor(r * chars.length)`: always a valid index into the alphabet. */
  function CharIndex(r: real): (k: nat)
    requires IsDraw(r)
    ensures k < AlphabetSize
    ensures k as real <= r * AlphabetSize as real < k as real + 1.0
  {
    (r * AlphabetSize as real).Floor
  }

  /** The identifier a batch of draws produces. */
  function IdFromDraws(d: seq<real>): (id: string)
    requires IsDrawBatch(d)
  {
    AlphabetShape();
    seq(IdLength, i requires 0 <= i < IdLength => Alphabet[CharIndex(d[i])])
  }

  /** `generateId` (and its copy `generateUserId`): append one alphabet character per draw. */
  method GenerateId(d: seq<real>) returns (id: string)
    requires IsDrawBatch(d)
    ensures IsPublicId(id)
    ensures id == IdFromDraws(d)
  {
    ghost var target := IdFromDraws(d);
    AlphabetShape();
    id := "";
    for i := 0 to IdLength
      invariant id == target[..i]
    {
      var c := Alphabet[CharIndex(d[i])];
      DrawsPrefix(d, i);
      id := id + [c];
    }
    assert id == target;
    IdFromDrawsIsPublicId(d);
  }

  /** One more draw extends the identifier by one alphabet character. */
  lemma DrawsPrefix(d: seq<real>, i: nat)
    requires IsDrawBatch(d) && i < IdLength
    ensures AlphabetSize <= |Alphabet|
    ensures IdFromDraws(d)[..i + 1] == IdFromDraws(d)[..i] + [Alphabet[CharIndex(d[i])]]
  {
    AlphabetShape();
    var id := IdFromDraws(d);
    assert id[i] == Alphabet[CharIndex(d[i])];
    assert id[..i + 1] == id[..i] + [id[i]];
  }

  /** Every identifier drawn is a public identifier. */
  lemma IdFromDrawsIsPublicId(d: seq<real>)
    requires IsDrawBatch(d)
    ensures IsPublicId(IdFromDraws(d))
  {
    var id := IdFromDraws(d);
    AlphabetShape();
    forall i | 0 <= i < |id| ensures IsAlphanumeric(id[i]) {
      assert id[i] == Alphabet[CharIndex(d[i])];
    }
  }

  /** No letter or digit is whitespace. */
  lemma PublicIdNoWhitespace(s: string)
    requires IsPublicId(s)
    ensures NoWhitespace(s)
  {
  }

  /** So the schema's `trim` setter leaves an identifier alone. */
  lemma PublicIdIsTrimmed(s: string)
    requires IsPublicId(s)
    ensures EndsTrimmed(s) && Trim(s) == s
  {
    PublicIdNoWhitespace(s);
    TrimOfTrimmed(s);
  }

  /** The candidate strings the retry loop would draw, in order. */
  function Candidates(draws: seq<seq<real>>): (cs: seq<string>)
    requires forall i :: 0 <= i < |draws| ==> IsDrawBatch(draws[i])
    ensures |cs| == |draws|
    ensures forall i :: 0 <= i < |cs| ==> IsPublicId(cs[i])
  {
    var cs := seq(|draws|, i requires 0 <= i < |draws| => IdFromDraws(draws[i]));
    assert forall i :: 0 <= i < |cs| ==> IsPublicId(cs[i]) by {
      forall i | 0 <= i < |cs| ensures IsPublicId(cs[i]) {
        IdFromDrawsIsPublicId(draws[i]);
      }
    }
    cs
  }

  /** The test each draw is put to: not already in use. */
  function IsFree(taken: set<string>): (string -> bool) {
    c => c !in taken
  }

  /** The outcome of a 10-draw allocation against the identifiers in use:
      the first candidate not in use, if any. */
  function Allocate(draws: seq<seq<real>>, taken: set<string>): Option<string>
    requires IsRandomSupply(draws)
  {
    var cands := Candidates(draws);
    match FirstIndex(cands, IsFree(taken))
    case None => None
    case Some(k) => Some(cands[k])
  }

  /** A loop that finds its first free candidate at try `i` allocates it. */
  lemma AllocateAt(draws: seq<seq<real>>, taken: set<string>, i: nat)
    requires IsRandomSupply(draws) && i < MaxAttempts
    requires Candidates(draws)[i] !in taken
    requires forall j :: 0 <= j < i ==> Candidates(draws)[j] in taken
    ensures Allocate(draws, taken) == Some(Candidates(draws)[i])
  {
    FirstIndexAt(Candidates(draws), IsFree(taken), i);
  }

  /** An allocation returns a public identifier not in use, namely the first
      candidate not in use, and fails exactly when all ten are in use. */
  lemma AllocateOutcome(draws: seq<seq<real>>, taken: set<string>)
    requires IsRandomSupply(draws)
    ensures var r := Allocate(draws, taken);
            r.Some? ==> IsPublicId(r.value) && r.value !in taken
    ensures var r := Allocate(draws, taken);
            r.Some? ==> exists k :: 0 <= k < MaxAttempts && r.value == Candidates(draws)[k]
                                    && forall j :: 0 <= j < k ==> Candidates(draws)[j] in taken
    ensures Allocate(draws, taken).None? <==> forall j :: 0 <= j < MaxAttempts ==> Candidates(draws)[j] in taken
  {
    var cands := Candidates(draws);
    match FirstIndex(cands, IsFree(taken)) {
      case None =>
      case Some(k) =>
        assert IsFree(taken)(cands[k]);
    }
  }
}
