/** Short temporary names: a counter in base 32, at most as wide as the name it stands in for. */
module TemporaryNames {
  import opened Wrappers
  import opened Journal
  import opened CopyLoop

  const ALPHABET := "abcdefghijklmnopqrstuvwxyz234567"
  const MAX_WIDTH := 24
  const ATTEMPTS := 32
  const WORD := U64_MAX + 1

  /** A 64-bit word. */
  type Word = n: nat | n <= U64_MAX

  function Width(maximumUnits: nat): nat
  {
    if maximumUnits < MAX_WIDTH then maximumUnits else MAX_WIDTH
  }

  /** The last `width` base-32 digits of a value. */
  function NameOf(width: nat, value: nat): (name: string)
    ensures |name| == width
  {
    if width == 0 then "" else NameOf(width - 1, value / 32) + [ALPHABET[value % 32]]
  }

  lemma NameStep(i: nat, value: nat, tail: string)
    ensures NameOf(i + 1, value) + tail == NameOf(i, value / 32) + ([ALPHABET[value % 32]] + tail)
  {
  }

  /** Fills a byte vector from its right end while shifting the counter. */
  method TemporaryFileName(maximumUnits: nat, counter: nat) returns (name: string)
    ensures name == NameOf(Width(maximumUnits), counter) && |name| <= maximumUnits
  {
    var width := Width(maximumUnits);
    var value := counter;
    var bytes := new char[width](_ => 'x');
    for i := width downto 0
      invariant NameOf(width, counter) == NameOf(i, value) + bytes[i..]
    {
      ghost var tail := bytes[i + 1..];
      bytes[i] := ALPHABET[value % 32];
      assert bytes[i..] == [ALPHABET[value % 32]] + tail;
      NameStep(i, value, tail);
      value := value / 32;
    }
    name := bytes[..];
  }

  // ----- Which counters share a name ----------------------------------------------------------------------

  function Pow32(width: nat): (r: nat)
    ensures r >= 1
  {
    if width == 0 then 1 else 32 * Pow32(width - 1)
  }

  lemma AlphabetDistinct(i: nat, j: nat)
    requires i < 32 && j < 32 && ALPHABET[i] == ALPHABET[j]
    ensures i == j
  {
    AlphabetAt(i);
    AlphabetAt(j);
  }

  lemma AlphabetAt(i: nat)
    requires i < 32
    ensures ALPHABET[i] as int == if i < 26 then 'a' as int + i else '2' as int + i - 26
  {
  }

  lemma ModUnique(a: nat, m: nat, q: nat, r: nat)
    requires m > 0 && a == q * m + r && r < m
    ensures a % m == r
  {
    var d := a / m - q;
    assert d * m == r - a % m;
    MultipleTooFar(d, m);
  }

  lemma MultipleTooFar(d: int, m: nat)
    ensures d >= 1 ==> d * m >= m
    ensures d <= -1 ==> -(d * m) >= m
  {
  }

  lemma SplitModulo(a: nat, p: nat)
    requires p > 0
    ensures a % (32 * p) == a / 32 % p * 32 + a % 32
  {
    var high := a / 32;
    var q, r := high / p, high % p;
    assert high == q * p + r;
    assert a == 32 * (q * p + r) + a % 32;
    assert 32 * (q * p) == q * (32 * p);
    ModUnique(a, 32 * p, q, r * 32 + a % 32);
  }

  lemma DivUnique(a: nat, m: nat, q: nat, r: nat)
    requires m > 0 && a == q * m + r && r < m
    ensures a / m == q
  {
    var d := a / m - q;
    assert d * m == r - a % m;
    MultipleTooFar(d, m);
  }

  lemma DivideTwice(v: nat, p: nat)
    requires p > 0
    ensures v / 32 / p == v / (32 * p)
  {
    var q, a, b := v / 32, v / 32 / p, v / 32 % p;
    assert q == a * p + b;
    assert v == a * (32 * p) + (32 * b + v % 32);
    DivUnique(v, 32 * p, a, 32 * b + v % 32);
  }

  /** Names are as wide as permitted, up to 24. */
  lemma WidthMeans(units: nat, value: nat)
    ensures |NameOf(Width(units), value)| == if units < 24 then units else 24
  {
  }

  /** Each character is the digit of its place, the last one counting units. */
  lemma {:induction false} NameDigits(width: nat, value: nat, i: nat)
    requires i < width
    ensures NameOf(width, value)[i] == "abcdefghijklmnopqrstuvwxyz234567"[value / Pow32(width - 1 - i) % 32]
  {
    if i < width - 1 {
      NameDigits(width - 1, value / 32, i);
      DigitBehind(width, value, i);
    } else {
      assert Pow32(0) == 1;
    }
  }

  lemma DigitBehind(width: nat, value: nat, i: nat)
    requires i + 1 < width
    ensures value / 32 / Pow32(width - 2 - i) == value / Pow32(width - 1 - i)
  {
    assert Pow32(width - 1 - i) == 32 * Pow32(width - 2 - i);
    DivideTwice(value, Pow32(width - 2 - i));
  }

  lemma CongruentSplit(a: nat, b: nat, p: nat)
    requires p > 0
    ensures a % (32 * p) == b % (32 * p) <==> a % 32 == b % 32 && a / 32 % p == b / 32 % p
  {
    SplitModulo(a, p);
    SplitModulo(b, p);
  }

  /** Two counters give the same name exactly when they agree modulo 32 to the width. */
  lemma {:induction false} SameNameExactly(width: nat, a: nat, b: nat)
    ensures NameOf(width, a) == NameOf(width, b) <==> a % Pow32(width) == b % Pow32(width)
  {
    if width > 0 {
      SameNameExactly(width - 1, a / 32, b / 32);
      CongruentSplit(a, b, Pow32(width - 1));
      var x, y := NameOf(width, a), NameOf(width, b);
      if x == y {
        assert x[..width - 1] == NameOf(width - 1, a / 32) && y[..width - 1] == NameOf(width - 1, b / 32);
        assert x[width - 1] == ALPHABET[a % 32] && y[width - 1] == ALPHABET[b % 32];
        AlphabetDistinct(a % 32, b % 32);
      }
    }
  }

  /** The counter after `i` increments; it wraps. */
  function Tick(counter: Word, i: nat): Word
  {
    (counter + i) % WORD
  }

  lemma TickModulo(counter: Word, i: nat)
    ensures Tick(counter, i) % 32 == (counter + i) % 32
  {
    var sum, t := counter + i, Tick(counter, i);
    ModUnique(sum, 32, sum / WORD * (WORD / 32) + t / 32, t % 32);
  }

  lemma TickNext(counter: Word, i: nat)
    ensures Tick(counter, 0) == counter
    ensures Tick(Tick(counter, i), 1) == Tick(counter, i + 1)
  {
    var sum, t := counter + i, Tick(counter, i);
    if t + 1 < WORD {
      ModUnique(sum + 1, WORD, sum / WORD, t + 1);
    } else {
      ModUnique(sum + 1, WORD, sum / WORD + 1, 0);
    }
  }

  lemma DifferentModulo32(a: nat, i: nat, j: nat)
    requires i < j < 32
    ensures (a + i) % 32 != (a + j) % 32
  {
  }

  /** Any 32 consecutive values of the wrapping counter give 32 different names, for every width. */
  lemma ConsecutiveDistinct(width: nat, counter: Word, i: nat, j: nat)
    requires width >= 1 && i < j < ATTEMPTS
    ensures NameOf(width, Tick(counter, i)) != NameOf(width, Tick(counter, j))
  {
    SameNameExactly(width, Tick(counter, i), Tick(counter, j));
    CongruentSplit(Tick(counter, i), Tick(counter, j), Pow32(width - 1));
    TickModulo(counter, i);
    TickModulo(counter, j);
    DifferentModulo32(counter, i, j);
  }

  lemma {:induction false} Pow32Grows(v: nat, w: nat)
    requires v <= w
    ensures Pow32(v) <= Pow32(w)
    decreases w
  {
    if v < w {
      Pow32Grows(v, w - 1);
    }
  }

  lemma Pow32Values()
    ensures Pow32(12) <= U64_MAX < Pow32(13)
  {
    assert Pow32(4) == 0x10_0000;
    assert Pow32(8) == 0x100_0000_0000;
    assert Pow32(12) == 0x1000_0000_0000_0000;
  }

  /** No two 64-bit counters share a name. */
  ghost predicate Injective(width: nat)
  {
    forall a, b :: 0 <= a <= U64_MAX && 0 <= b <= U64_MAX && NameOf(width, a) == NameOf(width, b) ==> a == b
  }

  /** That holds exactly from thirteen characters on. */
  lemma InjectiveExactly(width: nat)
    ensures Injective(width) <==> width >= 13
  {
    Pow32Values();
    if width >= 13 {
      Pow32Grows(13, width);
      forall a, b | 0 <= a <= U64_MAX && 0 <= b <= U64_MAX && NameOf(width, a) == NameOf(width, b)
        ensures a == b
      {
        SameNameExactly(width, a, b);
        ModUnique(a, Pow32(width), 0, a);
        ModUnique(b, Pow32(width), 0, b);
      }
    } else {
      Pow32Grows(width, 12);
      var p := Pow32(width);
      SameNameExactly(width, 0, p);
      ModUnique(p, p, 1, 0);
      ModUnique(0, p, 0, 0);
    }
  }

  // ----- A folder with temporary files ------------------------------------------------------------------------

  /** The names one attempt after the other would take. */
  function Attempt(units: nat, counter: Word, i: nat): string
  {
    NameOf(Width(units), Tick(counter, i))
  }

  /** The first attempt whose name is free. */
  ghost predicate FirstFree(units: nat, counter: Word, files: map<string, Bytes>, name: string)
  {
    name !in files
    && exists i :: 0 <= i < ATTEMPTS && name == Attempt(units, counter, i) && TakenUpTo(units, counter, files, i)
  }

  ghost predicate TakenUpTo(units: nat, counter: Word, files: map<string, Bytes>, n: nat)
  {
    forall i :: 0 <= i < n ==> Attempt(units, counter, i) in files
  }

  lemma FirstFreeUnique(units: nat, counter: Word, files: map<string, Bytes>, s: string, t: string)
    requires FirstFree(units, counter, files, s) && FirstFree(units, counter, files, t)
    ensures s == t
  {
  }

  ghost predicate AllTaken(units: nat, counter: Word, files: map<string, Bytes>)
  {
    TakenUpTo(units, counter, files, ATTEMPTS)
  }

  class Folder {
    var files: map<string, Bytes>
    var counter: Word

    constructor (files: map<string, Bytes>)
      ensures this.files == files && counter == 1
    {
      this.files, counter := files, 1;
    }

    /** Takes the first free name among 32 attempts. */
    method CreateTemporaryFile(units: nat) returns (r: Option<string>)
      requires units > 0
      modifies this
      ensures r.Some? ==> files == old(files)[r.value := []] && r.value !in old(files)
      ensures r.Some? ==> FirstFree(units, old(counter), old(files), r.value)
      ensures r.None? ==> files == old(files)
      ensures r.None? <==> AllTaken(units, old(counter), old(files))
    {
      TickNext(counter, 0);
      for i := 0 to ATTEMPTS
        invariant files == old(files) && counter == Tick(old(counter), i)
        invariant TakenUpTo(units, old(counter), files, i)
      {
        var name := TemporaryFileName(units, counter);
        assert name == Attempt(units, old(counter), i);
        TickNext(old(counter), i);
        counter := Tick(counter, 1);
        if name !in files {
          files := files[name := []];
          return Some(name);
        }
      }
      return None;
    }
  }

  function Images(f: nat -> string, n: nat): set<string>
  {
    if n == 0 then {} else Images(f, n - 1) + {f(n - 1)}
  }

  lemma {:induction false} ImagesAre(f: nat -> string, n: nat, name: string)
    requires name in Images(f, n)
    ensures exists i :: 0 <= i < n && name == f(i)
  {
    if name != f(n - 1) {
      ImagesAre(f, n - 1, name);
    }
  }

  lemma {:induction false} DistinctImages(f: nat -> string, n: nat)
    requires forall i, j :: 0 <= i < j < n ==> f(i) != f(j)
    ensures |Images(f, n)| == n
  {
    if n > 0 {
      DistinctImages(f, n - 1);
      if f(n - 1) in Images(f, n - 1) {
        ImagesAre(f, n - 1, f(n - 1));
      }
    }
  }

  lemma {:induction false} ImagesWithin(f: nat -> string, n: nat, names: set<string>)
    requires forall i :: 0 <= i < n ==> f(i) in names
    ensures Images(f, n) <= names
  {
    if n > 0 {
      ImagesWithin(f, n - 1, names);
    }
  }

  lemma SubsetSize<T>(a: set<T>, b: set<T>)
    requires a <= b
    ensures |a| <= |b|
  {
    assert b == a + (b - a);
  }

  /** The attempts run out only in a folder that already holds 32 files. */
  lemma ExhaustedMeansFull(units: nat, counter: Word, files: map<string, Bytes>)
    requires units > 0 && AllTaken(units, counter, files)
    ensures |files| >= 32
  {
    var f := (i: nat) => Attempt(units, counter, i);
    forall i, j | 0 <= i < j < ATTEMPTS
      ensures f(i) != f(j)
    {
      ConsecutiveDistinct(Width(units), counter, i, j);
    }
    DistinctImages(f, ATTEMPTS);
    ImagesWithin(f, ATTEMPTS, files.Keys);
    SubsetSize(Images(f, ATTEMPTS), files.Keys);
  }
}
