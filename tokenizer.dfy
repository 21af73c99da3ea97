/** The letter <-> code table the environment is built on. Its internals are
    not part of this model: it is a finite map from letters to integer codes
    together with the code of the reserved pad slot. */
module Tokenizers {

  datatype Tokenizer = Tokenizer(letter2index: map<char, int>, pad: int)
  {
    /** Every letter of `w` has a code. */
    predicate Covers(w: string) {
      forall c :: c in w ==> c in letter2index
    }

    /** Distinct letters get distinct codes. */
    ghost predicate Injective() {
      forall a, b :: a in letter2index && b in letter2index && a != b ==> letter2index[a] != letter2index[b]
    }

    /** The codes of the letters of `w`, position by position. */
    function Encode(w: string): (codes: seq<int>)
      requires Covers(w)
    {
      seq(|w|, j requires 0 <= j < |w| => letter2index[w[j]])
    }

    /** Under an injective table, a code occurs in an encoded word exactly
        when its letter occurs in the word. */
    lemma EncodedMembership(u: string, v: string, j: int)
      requires Injective() && Covers(u) && Covers(v)
      requires 0 <= j < |u|
      ensures |Encode(u)| == |u| && |Encode(v)| == |v|
      ensures Encode(u)[j] in Encode(v) <==> u[j] in v
    {
      var cu, cv := Encode(u), Encode(v);
      if cu[j] in cv {
        var k :| 0 <= k < |cv| && cv[k] == cu[j];
        assert letter2index[v[k]] == letter2index[u[j]];
        assert v[k] == u[j];
      }
      if u[j] in v {
        var k :| 0 <= k < |v| && v[k] == u[j];
        assert cv[k] == cu[j];
      }
    }

    /** Under an injective table, two encoded words agree at a position
        exactly when the words agree there. */
    lemma EncodedEqualAt(u: string, v: string, j: int)
      requires Injective() && Covers(u) && Covers(v)
      requires 0 <= j < |u| && 0 <= j < |v|
      ensures |Encode(u)| == |u| && |Encode(v)| == |v|
      ensures Encode(u)[j] == Encode(v)[j] <==> u[j] == v[j]
    {
      assert u[j] in u && v[j] in v;
    }
  }
}
