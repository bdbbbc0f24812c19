/**
The Mersenne Twister as it runs: one table, updated in place, and a read position.
*/
module MersenneTwisterGenerator {
  import opened TwisterWords
  import opened LaggedRecurrence
  import opened TablePasses
  import opened MersenneTwister

  const NEVER_SEEDED: nat := NN + 1

  class Generator {
    const mt: array<Word>
    var mti: nat

    ghost predicate Valid()
      reads this
    {
      mt.Length == NN && mti <= NEVER_SEEDED
    }

    /** The state the next draw starts from: a generator never seeded counts as seeded with 5489. */
    ghost function Current(): (st: State<Word>)
      requires Valid()
      reads this, mt
      ensures st.Valid()
    {
      if mti == NEVER_SEEDED then State(SeedTable(DEFAULT_SEED), NN) else State(mt[..], mti)
    }

    constructor ()
      ensures Valid() && fresh(mt)
      ensures Current() == State(SeedTable(5489), 312)
    {
      mt := new Word[NN];
      mti := NEVER_SEEDED;
    }

    method InitGenrand64(seed: Word)
      requires Valid()
      modifies this, mt
      ensures Valid() && mti == NN
      ensures mt[..] == SeedTable(seed)
    {
      mti := FillChain(SeedNext, mt, seed);
    }

    method InitByArray64(initKey: array<Word>, keyLength: nat)
      requires Valid() && initKey != mt && initKey.Length > 0 && keyLength <= initKey.Length
      modifies this, mt
      ensures Valid() && mti == NN
      ensures mt[..] == KeyTable(ReadKey(initKey[..], keyLength))
    {
      InitGenrand64(KEY_SEED);
      var i := MixKey(KeyMix, mt, initKey, keyLength);
      MixIndex(IndexMix, mt, i);
      mt[0] := TOP_BIT;
    }

    method Genrand64Int64() returns (x: Word)
      requires Valid()
      modifies this, mt
      ensures Valid()
      ensures x == Draw(old(Current()), 0)
      ensures Current() == Step(Next, old(Current()))
    {
      if mti >= NN {
        if mti == NEVER_SEEDED {
          InitGenrand64(DEFAULT_SEED);
        }
        Regenerate(Next, mt);
        mti := 0;
      }
      x := mt[mti];
      mti := mti + 1;
      x := Temper1(x);
      x := Temper2(x);
      x := Temper3(x);
      x := Temper4(x);
    }

    method Genrand64Int63() returns (x: Word)
      requires Valid()
      modifies this, mt
      ensures Valid()
      ensures x == Draw(old(Current()), 0) >> 1
      ensures Current() == Step(Next, old(Current()))
    {
      x := Genrand64Int64();
      x := x >> 1;
    }
  }
}
