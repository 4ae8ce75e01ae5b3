/**
 * The high-score table: five scores, best first, kept in memory and mirrored in a
 * key/value preference store under the keys "RANK_0" .. "RANK_4", with a marker entry
 * "E_CHECK" that says the store has been initialised.
 */
module Highscores {
  import opened Wrappers

  /** Java's `int`. */
  newtype int32 = x: int | -0x8000_0000 <= x < 0x8000_0000

  const MaxScores: int := 5
  const ECheckKey: string := "E_CHECK"
  const ECheck: string := "DECRYPTED"
  const RankPrefix: string := "RANK_"
  /** The message of the exception thrown for a rank past the table. */
  const OutOfRange: string := "Can only have 5 scores. 0 based indexing."
  /** An array store at a negative index fails before anything is written. */
  const NegativeIndex: string := "ArrayIndexOutOfBoundsException"
  const Zeros: seq<int32> := [0, 0, 0, 0, 0]

  // ------------------------------------------------------------ Integer.toString / parseInt

  predicate IsDigit(c: char) { '0' <= c <= '9' }

  predicate AllDigits(s: string) { forall i :: 0 <= i < |s| ==> IsDigit(s[i]) }

  function Digit(d: int): char
    requires 0 <= d < 10
  {
    ('0' as int + d) as char
  }

  /** The decimal digits of `n`, most significant first, without leading zeros. */
  function Digits(n: nat): (s: string)
    ensures |s| >= 1 && AllDigits(s)
    ensures s[0] != '0' || n == 0
  {
    if n < 10 then [Digit(n)] else Digits(n / 10) + [Digit(n % 10)]
  }

  /** The number a string of decimal digits stands for. */
  function Value(s: string): nat
    requires AllDigits(s)
  {
    if s == [] then 0 else Value(s[..|s| - 1]) * 10 + (s[|s| - 1] as int - '0' as int)
  }

  /** `Integer.toString`: a minus sign for negative numbers, then the digits of the magnitude. */
  function IntToString(v: int): string
  {
    if v < 0 then "-" + Digits(-v) else Digits(v)
  }

  /**
   * `Integer.parseInt`: an optional sign, then at least one decimal digit, and a value that
   * fits in 32 bits; anything else is a NumberFormatException, modelled as a failure.
   */
  function ParseInt(s: string): (r: Result<int32, string>)
    ensures r.Success? ==> |s| >= 1 && (IsDigit(s[0]) || (|s| >= 2 && (s[0] == '-' || s[0] == '+')))
    ensures r.Success? && s[0] == '-' ==> r.value <= 0
    ensures r.Success? && s[0] != '-' ==> r.value >= 0
  {
    if |s| == 0 then Failure(s)
    else
      var body := if s[0] == '-' || s[0] == '+' then s[1..] else s;
      if |body| == 0 || !AllDigits(body) then Failure(s)
      else
        var m: int := if s[0] == '-' then -(Value(body) as int) else Value(body);
        if -0x8000_0000 <= m < 0x8000_0000 then Success(m as int32) else Failure(s)
  }

  lemma {:induction false} ValueOfDigits(n: nat)
    ensures Value(Digits(n)) == n
  {
    if n >= 10 {
      var p := Digits(n / 10);
      ValueOfDigits(n / 10);
      assert Digits(n) == p + [Digit(n % 10)];
      assert (p + [Digit(n % 10)])[..|p|] == p;
    }
  }

  /** Every Java int survives being written with toString and read back with parseInt. */
  lemma ParseIntToString(v: int32)
    ensures ParseInt(IntToString(v as int)) == Success(v)
  {
    if v < 0 {
      ValueOfDigits(-(v as int));
      assert IntToString(v as int)[1..] == Digits(-(v as int));
    } else {
      ValueOfDigits(v as int);
    }
  }

  // ------------------------------------------------------------ the preference store

  /** The key the score of rank `r` is stored under. */
  function RankKey(r: int): string
  {
    RankPrefix + IntToString(r)
  }

  /** `getValue` with the store abstracted to plain strings: the stored value, or the default. */
  function Lookup(store: map<string, string>, key: string, default: string): string
  {
    if key in store then store[key] else default
  }

  /** Different numbers are written differently. */
  lemma IntToStringInjective(a: int, b: int)
    ensures IntToString(a) == IntToString(b) ==> a == b
  {
    if IntToString(a) == IntToString(b) {
      if a < 0 {
        assert IntToString(a)[1..] == Digits(-a);
        ValueOfDigits(-a);
      } else {
        ValueOfDigits(a);
      }
      if b < 0 {
        assert IntToString(b)[1..] == Digits(-b);
        ValueOfDigits(-b);
      } else {
        ValueOfDigits(b);
      }
    }
  }

  /** Different ranks are stored under different keys. */
  lemma RankKeyInjective(a: int, b: int)
    ensures RankKey(a) == RankKey(b) ==> a == b
  {
    if RankKey(a) == RankKey(b) {
      assert RankKey(a)[|RankPrefix|..] == IntToString(a);
      assert RankKey(b)[|RankPrefix|..] == IntToString(b);
      IntToStringInjective(a, b);
    }
  }

  /** The marker key is never the key of a rank. */
  lemma MarkerIsNoRank(r: int)
    ensures RankKey(r) != ECheckKey
  {
    assert RankKey(r)[0] == 'R' != ECheckKey[0];
  }

  /** The store after `setScore(lo, s[lo])`, ..., `setScore(hi - 1, s[hi - 1])`, in that order. */
  function Writes(store: map<string, string>, s: seq<int32>, lo: nat, hi: nat): map<string, string>
    requires hi <= |s|
    decreases hi
  {
    if hi <= lo then store else Writes(store, s, lo, hi - 1)[RankKey(hi - 1) := IntToString(s[hi - 1] as int)]
  }

  /** After the writes, every rank written reads back as the score written, and every other rank as before. */
  lemma {:induction false} WritesRead(store: map<string, string>, s: seq<int32>, lo: nat, hi: nat, r: int, default: string)
    requires hi <= |s|
    ensures var after := Writes(store, s, lo, hi);
      if lo <= r < hi then Lookup(after, RankKey(r), default) == IntToString(s[r] as int)
      else Lookup(after, RankKey(r), default) == Lookup(store, RankKey(r), default)
    decreases hi
  {
    if hi > lo {
      RankKeyInjective(r, hi - 1);
      WritesRead(store, s, lo, hi - 1, r, default);
    }
  }

  /** The writes leave the marker entry alone. */
  lemma {:induction false} WritesKeepMarker(store: map<string, string>, s: seq<int32>, lo: nat, hi: nat)
    requires hi <= |s|
    ensures Lookup(Writes(store, s, lo, hi), ECheckKey, "INVALID") == Lookup(store, ECheckKey, "INVALID")
    ensures ECheckKey in Writes(store, s, lo, hi) <==> ECheckKey in store
    decreases hi
  {
    if hi > lo {
      MarkerIsNoRank(hi - 1);
      WritesKeepMarker(store, s, lo, hi - 1);
    }
  }

  /** `isKeyValid`: the marker is present and reads back as "DECRYPTED". */
  predicate KeyValid(store: map<string, string>)
  {
    if ECheckKey in store then Lookup(store, ECheckKey, "INVALID") == ECheck else false
  }

  /** Each of the ranks `lo` .. `hi - 1` parses back from the store as the matching entry of `s`. */
  ghost predicate Agrees(store: map<string, string>, s: seq<int32>, lo: int, hi: int)
    requires 0 <= lo && hi <= |s|
  {
    forall r :: lo <= r < hi ==> ParseInt(Lookup(store, RankKey(r), "0")) == Success(s[r])
  }

  /** Setting one rank in the table and in the store keeps the two in agreement. */
  lemma SetAgrees(store: map<string, string>, s: seq<int32>, rank: int, value: int32)
    requires 0 <= rank < |s| == MaxScores && Agrees(store, s, 0, MaxScores)
    ensures Agrees(store[RankKey(rank) := IntToString(value as int)], s[rank := value], 0, MaxScores)
  {
    forall q | 0 <= q < MaxScores
      ensures ParseInt(Lookup(store[RankKey(rank) := IntToString(value as int)], RankKey(q), "0")) == Success(s[rank := value][q])
    {
      RankKeyInjective(q, rank);
      if q == rank {
        ParseIntToString(value);
      }
    }
  }

  /** The store determines the table: two tables that both agree with it are the same. */
  lemma AgreesUnique(store: map<string, string>, s: seq<int32>, t: seq<int32>)
    requires |s| == |t| == MaxScores && Agrees(store, s, 0, MaxScores) && Agrees(store, t, 0, MaxScores)
    ensures s == t
  {
    forall j | 0 <= j < MaxScores
      ensures s[j] == t[j]
    {
      assert Success(s[j]) == ParseInt(Lookup(store, RankKey(j), "0")) == Success(t[j]);
    }
  }

  // ------------------------------------------------------------ insertion into the table

  /** Where `updateScore` puts `v`: before the first score it beats, or nowhere (`|s|`). */
  function InsertAt(s: seq<int32>, v: int32): (k: nat)
    ensures k <= |s|
    ensures forall j :: 0 <= j < k ==> v <= s[j]
    ensures k < |s| ==> v > s[k]
  {
    if s == [] then 0 else if v > s[0] then 0 else 1 + InsertAt(s[1..], v)
  }

  /** The table after `updateScore(v)`: `v` takes its place and the lowest score drops off. */
  function Insert(s: seq<int32>, v: int32): seq<int32>
  {
    var k := InsertAt(s, v);
    if k < |s| then Place(s, k, v) else s
  }

  /** `v` at rank `k`, the scores from rank `k` on moved down one rank, the last one dropped. */
  function Place(s: seq<int32>, k: nat, v: int32): seq<int32>
    requires k < |s|
  {
    s[..k] + [v] + s[k..|s| - 1]
  }

  /** Where everything goes: the scores above rank `k` stay, the ones from `k` on move down a rank. */
  lemma PlaceMoves(s: seq<int32>, k: nat, v: int32)
    requires k < |s|
    ensures |Place(s, k, v)| == |s| && Place(s, k, v)[k] == v
    ensures forall j :: 0 <= j < k ==> Place(s, k, v)[j] == s[j]
    ensures forall j :: k < j < |s| ==> Place(s, k, v)[j] == s[j - 1]
  {
  }

  /** Best first. */
  predicate Descending(s: seq<int32>)
  {
    forall i, j :: 0 <= i < j < |s| ==> s[i] >= s[j]
  }

  /** The table keeps its size and stays ordered best first. */
  lemma InsertKeepsOrder(s: seq<int32>, v: int32)
    requires Descending(s)
    ensures |Insert(s, v)| == |s| && Descending(Insert(s, v))
  {
    var k := InsertAt(s, v);
    if k < |s| {
      var t := Insert(s, v);
      PlaceMoves(s, k, v);
      forall i, j | 0 <= i < j < |t|
        ensures t[i] >= t[j]
      {
        var a := if i < k then s[i] else if i == k then v else s[i - 1];
        var b := if j < k then s[j] else if j == k then v else s[j - 1];
        assert t[i] == a && t[j] == b;
        if i < k && j > k {
          assert s[i] >= s[j - 1];
        } else if i == k && j > k {
          assert v > s[k] >= s[j - 1];
        } else if i > k {
          assert s[i - 1] >= s[j - 1];
        }
      }
    }
  }

  /** On an ordered table, a score gets in exactly when it beats the lowest one. */
  lemma InsertEntersIff(s: seq<int32>, v: int32)
    requires Descending(s) && s != []
    ensures InsertAt(s, v) < |s| <==> v > s[|s| - 1]
  {
  }

  /** What goes in: the new score and the old table minus its last entry. */
  lemma InsertContents(s: seq<int32>, v: int32)
    requires InsertAt(s, v) < |s|
    ensures multiset(Insert(s, v)) == multiset(s[..|s| - 1]) + multiset{v}
  {
    PlaceContents(s, InsertAt(s, v), v);
  }

  lemma PlaceContents(s: seq<int32>, k: nat, v: int32)
    requires k < |s|
    ensures multiset(Place(s, k, v)) == multiset(s[..|s| - 1]) + multiset{v}
  {
    var a, b := s[..k], s[k..|s| - 1];
    assert s[..|s| - 1] == a + b;
    calc {
      multiset(Place(s, k, v));
      multiset(a + [v] + b);
      multiset(a) + multiset{v} + multiset(b);
    }
  }


  /** A score that beats none of the table leaves it as it is. */
  lemma InsertUnchanged(s: seq<int32>, v: int32)
    requires forall j :: 0 <= j < |s| ==> v <= s[j]
    ensures Insert(s, v) == s
  {
  }

  // ------------------------------------------------------------ the manager

  /** models/HighscoreManager.java: the in-memory table and the preference store behind it. */
  class HighscoreManager {
    var scores: array<int32>
    /** The shared preferences, holding plain strings (the encryption is not modelled). */
    var store: map<string, string>

    ghost predicate Valid()
      reads this
    {
      scores.Length == MaxScores
    }

    /** The table is what the store holds: `getScore(r)` returns `scores[r]` for every rank. */
    ghost predicate Consistent()
      reads this, scores
    {
      scores.Length == MaxScores && Agrees(store, scores[..], 0, MaxScores)
    }

    /** The fields before the constructor body runs; the table is replaced before it is read. */
    constructor Of(prefs: map<string, string>)
      ensures Valid() && store == prefs && fresh(scores)
    {
      scores := new int32[MaxScores];
      store := prefs;
    }

    /**
     * `new HighscoreManager(context)`: initialise the store if its marker is missing or wrong,
     * then load the table from it; a stored score that does not parse makes construction fail.
     */
    static method Open(prefs: map<string, string>) returns (r: Result<HighscoreManager, string>)
      ensures r.Success? ==> fresh(r.value) && r.value.Valid() && r.value.Consistent() && KeyValid(r.value.store)
      ensures !KeyValid(prefs) ==>
        r.Success? && r.value.store == Writes(prefs[ECheckKey := ECheck], Zeros, 0, MaxScores) &&
        r.value.scores[..] == Zeros
      ensures KeyValid(prefs) ==>
        (r.Success? <==> forall j :: 0 <= j < MaxScores ==> ParseInt(Lookup(prefs, RankKey(j), "0")).Success?)
      ensures KeyValid(prefs) && r.Success? ==> r.value.store == prefs
    {
      var m := new HighscoreManager.Of(prefs);
      var valid := m.IsKeyValid();
      if !valid {
        m.InitPreferences();
      }
      var loaded := m.LoadScores();
      if loaded.Failure? {
        return Failure(loaded.error);
      }
      if !valid {
        AgreesUnique(m.store, loaded.value[..], Zeros);
      }
      m.scores := loaded.value;
      return Success(m);
    }

    function IsKeyValid(): (b: bool)
      reads this
      ensures b <==> ECheckKey in store && store[ECheckKey] == ECheck
    {
      KeyValid(store)
    }

    /** `getScore`: ranks past the table throw; any other rank is parsed from the store, "0" when absent. */
    function GetScore(rank: int32): (r: Result<int32, string>)
      reads this, scores
      ensures rank as int >= MaxScores ==> r == Failure(OutOfRange)
      ensures 0 <= rank as int < MaxScores && Consistent() ==> r == Success(scores[rank])
      ensures rank < 0 && RankKey(rank as int) !in store ==> r == Success(0)
    {
      if rank as int >= MaxScores then Failure(OutOfRange)
      else
        assert ParseInt("0") == Success(0);
        ParseInt(Lookup(store, RankKey(rank as int), "0"))
    }

    /** `setScore`: one entry of the table and its stored copy; a rank outside the table fails and changes nothing. */
    method SetScore(rank: int32, value: int32) returns (r: Result<(), string>)
      requires Valid()
      modifies this`store, scores
      ensures Valid()
      ensures rank as int >= MaxScores ==> r == Failure(OutOfRange)
      ensures rank < 0 ==> r == Failure(NegativeIndex)
      ensures r.Failure? ==> store == old(store) && forall j :: 0 <= j < MaxScores ==> scores[j] == old(scores[j])
      ensures 0 <= rank as int < MaxScores ==>
        r == Success(()) && scores[rank] == value &&
        (forall j :: 0 <= j < MaxScores && j != rank as int ==> scores[j] == old(scores[j])) &&
        store == old(store)[RankKey(rank as int) := IntToString(value as int)]
      ensures old(Consistent()) ==> Consistent()
    {
      if rank as int >= MaxScores {
        return Failure(OutOfRange);
      }
      if rank < 0 {
        return Failure(NegativeIndex);
      }
      ghost var before := scores[..];
      if Consistent() {
        SetAgrees(store, before, rank as int, value);
      }
      scores[rank] := value;
      store := store[RankKey(rank as int) := IntToString(value as int)];
      assert scores[..] == before[rank := value];
      return Success(());
    }

    /** `reset`: every rank back to zero, in the table and in the store. */
    method Reset()
      requires Valid()
      modifies this`store, scores
      ensures Valid() && Consistent()
      ensures scores[..] == Zeros && store == Writes(old(store), Zeros, 0, MaxScores)
    {
      ghost var before := store;
      for i := 0 to MaxScores
        invariant Valid()
        invariant store == Writes(before, Zeros, 0, i)
        invariant forall j :: 0 <= j < i ==> scores[j] == 0
      {
        var _ := SetScore(i as int32, 0);
      }
      assert scores[..] == Zeros;
      AllWritten(before, Zeros);
    }

    /** After all five ranks are written, the store agrees with what was written. */
    lemma AllWritten(before: map<string, string>, s: seq<int32>)
      requires Valid() && |s| == MaxScores && scores[..] == s && store == Writes(before, s, 0, MaxScores)
      ensures Consistent()
    {
      forall r | 0 <= r < MaxScores
        ensures ParseInt(Lookup(store, RankKey(r), "0")) == Success(s[r])
      {
        WritesRead(before, s, 0, MaxScores, r, "0");
        ParseIntToString(s[r]);
      }
    }

    /** `initPreferences`: write the marker, start a fresh table and store zero for every rank. */
    method InitPreferences()
      modifies this`store, this`scores
      ensures fresh(scores) && Valid() && Consistent() && KeyValid(store)
      ensures scores[..] == Zeros && store == Writes(old(store)[ECheckKey := ECheck], Zeros, 0, MaxScores)
    {
      store := store[ECheckKey := ECheck];
      ghost var marked := store;
      scores := new int32[MaxScores];
      for i := 0 to MaxScores
        invariant Valid() && fresh(scores)
        invariant store == Writes(marked, Zeros, 0, i)
        invariant forall j :: 0 <= j < i ==> scores[j] == 0
      {
        var _ := SetScore(i as int32, 0);
      }
      assert scores[..] == Zeros;
      AllWritten(marked, Zeros);
      WritesKeepMarker(marked, Zeros, 0, MaxScores);
    }

    /** `loadScores`: a new table read rank by rank from the store; the first unparsable entry fails. */
    method LoadScores() returns (r: Result<array<int32>, string>)
      ensures r.Success? ==> fresh(r.value) && r.value.Length == MaxScores && Agrees(store, r.value[..], 0, MaxScores)
      ensures r.Failure? <==> exists j :: 0 <= j < MaxScores && ParseInt(Lookup(store, RankKey(j), "0")).Failure?
    {
      var a := new int32[MaxScores];
      for i := 0 to MaxScores
        invariant forall j :: 0 <= j < i ==> ParseInt(Lookup(store, RankKey(j), "0")) == Success(a[j])
      {
        var got := GetScore(i as int32);
        if got.Failure? {
          return Failure(got.error);
        }
        a[i] := got.value;
      }
      return Success(a);
    }

    /**
     * `updateScore`: find the first score the new one beats and put it there; a score that
     * beats none changes nothing.
     */
    method UpdateScore(score: int32)
      requires Valid()
      modifies this`store, scores
      ensures Valid()
      ensures scores[..] == Insert(old(scores[..]), score)
      ensures var k := InsertAt(old(scores[..]), score);
        store == if k < MaxScores then Writes(old(store), scores[..], k + 1, MaxScores)[RankKey(k) := IntToString(score as int)]
                 else old(store)
      ensures old(Consistent()) ==> Consistent()
    {
      var i := 0;
      while i < scores.Length
        invariant 0 <= i <= MaxScores
        invariant forall j :: 0 <= j < i ==> score <= scores[j]
      {
        if score > scores[i] {
          assert InsertAt(scores[..], score) == i;
          PlaceScore(i, score);
          return;
        }
        i := i + 1;
      }
      InsertUnchanged(scores[..], score);
    }

    /**
     * The body of `updateScore` once rank `i` is found: copy the table, store each score from
     * rank `i` on one rank lower (the last one drops off), then store the new score at rank `i`.
     */
    method PlaceScore(i: int, score: int32)
      requires Valid() && 0 <= i < MaxScores
      modifies this`store, scores
      ensures Valid()
      ensures scores[..] == Place(old(scores[..]), i, score)
      ensures store == Writes(old(store), scores[..], i + 1, MaxScores)[RankKey(i) := IntToString(score as int)]
      ensures old(Consistent()) ==> Consistent()
    {
      var tempScores := scores[..];
      ghost var t := Place(tempScores, i, score);
      ghost var before := store;
      PlaceMoves(tempScores, i, score);
      for x := i + 1 to scores.Length
        invariant Valid()
        invariant forall j :: 0 <= j < MaxScores ==> scores[j] == if i < j < x then t[j] else tempScores[j]
        invariant store == Writes(before, t, i + 1, x)
        invariant old(Consistent()) ==> Consistent()
      {
        assert t[x] == tempScores[x - 1];
        var _ := SetScore(x as int32, tempScores[x - 1]);
      }
      var _ := SetScore(i as int32, score);
      assert scores[..] == t;
    }
  }
}
