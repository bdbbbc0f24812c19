/**
The growable bit set: an array of 64-bit words with a recorded length and a count of words in
use, against the set of naturals it stands for.
*/
module BitSet {
  import opened WordBits

  const RECORDED_LENGTH: nat := 8  // what a new set records, whatever it allocated

  function WordIndex(bitIndex: nat): nat {
    bitIndex / 64
  }

  function Greater(a: nat, b: nat): nat {
    if a > b then a else b
  }

  /** The words allocated for nbits bits.  For none the count wraps around to 2^58, which cannot be had. */
  function Allocated(nbits: nat): nat {
    if nbits == 0 then 0 else WordIndex(nbits - 1) + 1
  }

  predicate Contains(w: seq<Word>, used: nat, k: nat)
    requires used <= |w|
  {
    WordIndex(k) < used && HasBit(w[WordIndex(k)], k)
  }

  /** The numbers whose bits are set in the words in use. */
  function Members(w: seq<Word>, used: nat): (s: set<nat>)
    requires used <= |w|
    ensures forall k: nat :: k in s <==> Contains(w, used, k)
  {
    set k: nat | 0 <= k < 64 * used && Contains(w, used, k)
  }

  /** Setting a bit of one word, with zeros between the old and the new end of use, adds one number. */
  lemma OneMoreMember(v: seq<Word>, used: nat, w: seq<Word>, used': nat, k: nat)
    requires used <= |v| && used' == Greater(used, WordIndex(k) + 1) <= |w|
    requires w[WordIndex(k)] == SetBit(if WordIndex(k) < used then v[WordIndex(k)] else 0, k)
    requires forall i | 0 <= i < used' && i != WordIndex(k) :: w[i] == if i < used then v[i] else 0
    ensures Members(w, used') == Members(v, used) + {k}
  {
    forall n: nat ensures Contains(w, used', n) <==> Contains(v, used, n) || n == k {
      SetBitSetsOne(if WordIndex(k) < used then v[WordIndex(k)] else 0, k, n);
      ZeroHasNoBit(n);
    }
  }

  lemma SameMembers(v: seq<Word>, w: seq<Word>, used: nat)
    requires used <= |v| && used <= |w| && forall i | 0 <= i < used :: v[i] == w[i]
    ensures Members(v, used) == Members(w, used)
  {
    forall n: nat ensures Contains(w, used, n) <==> Contains(v, used, n) {}
  }

  class BitSet {
    var words: array<Word>
    var wordsLength: nat
    var wordsInUse: nat
    var sizeIsSticky: bool

    /** The recorded length is within the allocation. */
    ghost predicate Backed()
      reads this
    {
      wordsLength <= words.Length
    }

    /** The reads that checkInvariants makes are within the allocation. */
    ghost predicate CheckStaysInside()
      reads this
    {
      && (wordsInUse == 0 || wordsInUse <= words.Length)
      && (wordsInUse == wordsLength || wordsInUse < words.Length)
    }

    /** The three assertions of checkInvariants. */
    ghost predicate CheckInvariants()
      reads this, words
      requires CheckStaysInside()
    {
      && wordsInUse <= wordsLength
      && (wordsInUse == 0 || words[wordsInUse - 1] != 0)
      && (wordsInUse == wordsLength || words[wordsInUse] == 0)
    }

    /** As checkInvariants, with every word out of use zero. */
    ghost predicate Valid()
      reads this, words
    {
      && Backed()
      && CheckStaysInside()
      && CheckInvariants()
      && forall i | wordsInUse <= i < wordsLength :: words[i] == 0
    }

    /** The set that the words stand for. */
    ghost function Elements(): (s: set<nat>)
      reads this, words
      requires Backed() && wordsInUse <= wordsLength
    {
      Members(words[..], wordsInUse)
    }

    /** The length, allocation and words in use once the set has grown to hold the word at index. */
    ghost function GrownLength(index: nat): nat
      reads this
    {
      if wordsInUse <= index && wordsLength <= index then Greater(2 * wordsLength, index + 1) else wordsLength
    }

    ghost function GrownAllocation(index: nat): nat
      reads this
    {
      if wordsInUse <= index && wordsLength <= index then GrownLength(index) else words.Length
    }

    ghost function GrownInUse(index: nat): nat
      reads this
    {
      Greater(wordsInUse, index + 1)
    }

    /** Setting this bit, with the check after it, touches allocated words only. */
    ghost predicate SetStaysInside(bitIndex: nat)
      reads this
    {
      var index := WordIndex(bitIndex);
      var (size, used) := (GrownAllocation(index), GrownInUse(index));
      index < size && used <= size && (used == GrownLength(index) || used < size)
    }

    /**
    Every bit can be set safely exactly when the allocation holds the eight words that are
    recorded; otherwise the first bit past the allocation is written outside it.
    */
    constructor New2(nbits: nat)
      ensures fresh(words) && sizeIsSticky && wordsInUse == 0 && wordsLength == RECORDED_LENGTH
      ensures (forall k: nat :: SetStaysInside(k)) <==> nbits >= 449
      ensures nbits < 449 ==> !SetStaysInside(64 * words.Length)
      ensures Valid() <==> nbits >= 449
      ensures Valid() ==> Elements() == {}
    {
      words := new Word[Allocated(nbits)](_ => 0);
      wordsLength := RECORDED_LENGTH;
      wordsInUse := 0;
      sizeIsSticky := true;
      new;
      assert WordIndex(64 * words.Length) == words.Length;
      assert nbits < 449 ==> !SetStaysInside(64 * words.Length);
    }

    /** The default constructor allocates one word for 64 bits and records eight. */
    constructor New()
      ensures fresh(words) && !sizeIsSticky && wordsInUse == 0 && wordsLength == RECORDED_LENGTH
      ensures !Backed() && !SetStaysInside(64)
    {
      words := new Word[Allocated(64)](_ => 0);
      wordsLength := RECORDED_LENGTH;
      wordsInUse := 0;
      sizeIsSticky := false;
    }

    constructor Copy(words: array<Word>, wordsLength: nat, wordsInUse: nat, sizeIsSticky: bool)
      ensures this.words == words && this.wordsLength == wordsLength
      ensures this.wordsInUse == wordsInUse && this.sizeIsSticky == sizeIsSticky
    {
      this.words := words;
      this.wordsLength := wordsLength;
      this.wordsInUse := wordsInUse;
      this.sizeIsSticky := sizeIsSticky;
    }

    /** Growth at least doubles, keeps every allocated word and zero-fills the new ones. */
    method EnsureCapacity(wordsRequired: nat)
      modifies this
      ensures wordsInUse == old(wordsInUse) && (words == old(words) || fresh(words))
      ensures old(wordsLength) >= wordsRequired ==> words == old(words) && wordsLength == old(wordsLength)
      ensures old(wordsLength) < wordsRequired ==>
                words.Length == wordsLength == Greater(2 * old(wordsLength), wordsRequired)
      ensures forall i | 0 <= i < old(wordsLength) && i < old(words).Length :: words[i] == old(words[i])
      ensures forall i | old(wordsLength) <= i < wordsLength :: words[i] == 0
      ensures sizeIsSticky == (old(sizeIsSticky) && old(wordsLength) >= wordsRequired)
    {
      if wordsLength < wordsRequired {
        var request := Greater(2 * wordsLength, wordsRequired);
        var tmp := Reallocated(request);
        words := tmp;
        wordsLength := request;
        sizeIsSticky := false;
      }
    }

    /** The allocated words, whatever the memory held where none were allocated, and then zeros. */
    method Reallocated(request: nat) returns (tmp: array<Word>)
      requires wordsLength <= request
      ensures fresh(tmp) && tmp.Length == request
      ensures forall i | 0 <= i < wordsLength && i < words.Length :: tmp[i] == words[i]
      ensures forall i | wordsLength <= i < request :: tmp[i] == 0
    {
      var junk: Word := *;
      tmp := new Word[request](i requires 0 <= i reads this, words =>
        if i >= wordsLength then 0 else if i < words.Length then words[i] else junk);
    }

    method ExpandTo(wordIndex: nat)
      modifies this
      ensures wordsLength == old(GrownLength(wordIndex)) && words.Length == old(GrownAllocation(wordIndex))
      ensures wordsInUse == old(GrownInUse(wordIndex))
      ensures words == old(words) || fresh(words)
      ensures old(Valid()) ==> Backed() && wordsLength >= old(wordsLength)
      ensures old(Valid()) ==> forall i | 0 <= i < old(wordsLength) :: words[i] == old(words[i])
      ensures old(Valid()) ==> forall i | old(wordsInUse) <= i < wordsLength :: words[i] == 0
    {
      var wordsRequired := wordIndex + 1;
      if wordsInUse < wordsRequired {
        EnsureCapacity(wordsRequired);
        wordsInUse := wordsRequired;
      }
    }

    /** Needs only that its accesses are within the allocation; a valid set gains exactly this number. */
    method Set(bitIndex: nat)
      requires SetStaysInside(bitIndex)
      modifies this, words
      ensures words == old(words) || fresh(words)
      ensures CheckStaysInside()
      ensures WordIndex(bitIndex) < words.Length && HasBit(words[WordIndex(bitIndex)], bitIndex)
      ensures old(Valid()) ==> Valid() && Elements() == old(Elements()) + {bitIndex}
    {
      ghost var valid, before, used := Valid(), words[..], wordsInUse;
      var index := WordIndex(bitIndex);
      ExpandTo(index);
      ghost var grown := words[index];
      words[index] := SetBit(words[index], bitIndex);
      SetBitNonZero(grown, bitIndex);
      SetBitSetsOne(grown, bitIndex, bitIndex);
      if valid {
        OneMoreMember(before, used, words[..], wordsInUse, bitIndex);
      }
    }

    /** No bit is out of reach of a valid set. */
    lemma ValidStaysInside(bitIndex: nat)
      requires Valid()
      ensures SetStaysInside(bitIndex)
    {}

    method Get(bitIndex: nat) returns (present: bool)
      requires Valid()
      ensures present <==> bitIndex in Elements()
    {
      var index := WordIndex(bitIndex);
      present := index < wordsInUse && HasBit(words[index], bitIndex);
    }

    method CopiedWords(size: nat) returns (tmp: array<Word>)
      requires size <= words.Length
      ensures fresh(tmp) && tmp[..] == words[..size]
    {
      tmp := new Word[size](i requires 0 <= i reads this, words => if i < words.Length then words[i] else 0);
    }

    /** Drops the words out of use; the set stays the same. */
    method TrimToSize()
      requires Valid()
      modifies this
      ensures Valid() && wordsLength == wordsInUse == old(wordsInUse)
      ensures sizeIsSticky == old(sizeIsSticky)
      ensures words == old(words) || fresh(words)
      ensures Elements() == old(Elements())
    {
      ghost var before := words[..];
      if wordsInUse != wordsLength {
        var length := if wordsLength < wordsInUse then wordsLength else wordsInUse;
        var tmp := CopiedWords(wordsInUse);
        words := tmp;
        wordsLength := length;
      }
      SameMembers(before, words[..], wordsInUse);
    }

    /** The copy has its own words, so that later updates of either leave the other alone. */
    method Clone() returns (dolly: BitSet)
      requires Valid()
      modifies this
      ensures Valid() && Elements() == old(Elements())
      ensures words == old(words) || fresh(words)
      ensures old(sizeIsSticky) ==> unchanged(this)
      ensures fresh(dolly) && fresh(dolly.words) && dolly.words != words
      ensures dolly.Valid() && dolly.Elements() == old(Elements())
      ensures dolly.sizeIsSticky == old(sizeIsSticky) && dolly.wordsLength == wordsLength == dolly.words.Length
      ensures !old(sizeIsSticky) ==> wordsLength == wordsInUse
    {
      if !sizeIsSticky {
        TrimToSize();
      }
      var copied := CopiedWords(wordsLength);
      dolly := new BitSet.Copy(copied, wordsLength, wordsInUse, sizeIsSticky);
      SameMembers(words[..], copied[..], wordsInUse);
    }
  }
}
