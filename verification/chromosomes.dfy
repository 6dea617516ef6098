/** The static table between the sixteen yeast chromosome names (Roman numerals) and the
    integers under which the annotation store keeps them. */
module Chromosomes {

  /** Name to number, as the application defines it once at start-up. */
  const Chrom2Id: map<string, int> := map[
    "I" := 1, "II" := 2, "III" := 3, "IV" := 4, "V" := 5, "VI" := 6, "VII" := 7, "VIII" := 8,
    "IX" := 9, "X" := 10, "XI" := 11, "XII" := 12, "XIII" := 13, "XIV" := 14, "XV" := 15,
    "XVI" := 16]

  /** Number to name. The application builds it by swapping key and value of every entry of
      Chrom2Id; here it is written out, and InverseIsUnique shows that it is the only map that
      such a swap can produce. */
  const Id2Chrom: map<int, string> := map[
    1 := "I", 2 := "II", 3 := "III", 4 := "IV", 5 := "V", 6 := "VI", 7 := "VII", 8 := "VIII",
    9 := "IX", 10 := "X", 11 := "XI", 12 := "XII", 13 := "XIII", 14 := "XIV", 15 := "XV",
    16 := "XVI"]

  /** The numbers are exactly 1..16. */
  lemma IdsAreOneToSixteen()
    ensures forall n :: n in Id2Chrom ==> 1 <= n <= 16
    ensures forall n :: 1 <= n <= 16 ==> n in Id2Chrom
  {
  }

  /** A name translated to its number and back is the same name. */
  lemma NameRoundTrip(c: string)
    requires c in Chrom2Id
    ensures Chrom2Id[c] in Id2Chrom && Id2Chrom[Chrom2Id[c]] == c
  {
  }

  /** A number translated to its name and back is the same number. */
  lemma IdRoundTrip(n: int)
    requires n in Id2Chrom
    ensures Id2Chrom[n] in Chrom2Id && Chrom2Id[Id2Chrom[n]] == n
  {
  }

  /** No two names share a number, so swapping key and value loses no entry. */
  lemma NumbersAreDistinct(c: string, d: string)
    requires c in Chrom2Id && d in Chrom2Id && Chrom2Id[c] == Chrom2Id[d]
    ensures c == d
  {
    NameRoundTrip(c);
    NameRoundTrip(d);
  }

  /** What swapping key and value of every entry of Chrom2Id gives: its keys are exactly
      the numbers of Chrom2Id, and each is sent to a name with that number. Any such map is
      Id2Chrom. */
  lemma InverseIsUnique(m: map<int, string>)
    requires forall n :: n in m <==> exists c :: c in Chrom2Id && Chrom2Id[c] == n
    requires forall n :: n in m ==> m[n] in Chrom2Id && Chrom2Id[m[n]] == n
    ensures m == Id2Chrom
  {
    assert m.Keys <= Id2Chrom.Keys by {
      forall n | n in m ensures n in Id2Chrom {
        var c :| c in Chrom2Id && Chrom2Id[c] == n;
        NameRoundTrip(c);
      }
    }
    assert forall n :: n in Id2Chrom ==> n in m && m[n] == Id2Chrom[n] by {
      forall n | n in Id2Chrom ensures n in m && m[n] == Id2Chrom[n] {
        IdRoundTrip(n);
        var c := Id2Chrom[n];
        assert Chrom2Id[c] == n;
        assert n in m;
        NumbersAreDistinct(m[n], c);
      }
    }
    assert m.Keys == Id2Chrom.Keys;
  }
}
