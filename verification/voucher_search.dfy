/** The quick search of the vouchers page: one free-text term, matched without
    regard to letter case against four texts of each voucher, keeping the
    matching vouchers in their original order. */
module VoucherSearch {
  import opened FinanceTypes
  import opened Text
  import opened Numbers
  import opened Selection

  /** Whether the page keeps voucher `v` for the search `term`: the lower-case
      term occurs in the affiliate's full name, the affiliate's identity card,
      the deposit number written in decimal, or the bank's name. */
  predicate Matches(v: Voucher, term: string) {
    var q := Lower(term);
    || Includes(Lower(v.affiliate.fullName), q)
    || Includes(Lower(v.affiliate.identityCard), q)
    || Includes(IntToDecimal(v.depositNumber), q)
    || Includes(Lower(v.bank.name), q)
  }

  /** The page's filter callback for a fixed term. */
  function KeepFor(term: string): Voucher -> bool {
    v => Matches(v, term)
  }

  /** `filteredVouchers`: the vouchers that match, in input order. */
  function Filter(vs: seq<Voucher>, term: string): seq<Voucher> {
    Select(vs, KeepFor(term))
  }

  /** The filtered list is the input read at exactly the positions of the
      matching vouchers, in increasing order: an order-preserving selection
      that adds, repeats and alters nothing. */
  lemma FilterIsOrderedSelection(vs: seq<Voucher>, term: string)
    ensures var idx := SelectedIndices(vs, KeepFor(term));
      && |Filter(vs, term)| == |idx|
      && (forall k :: 0 <= k < |idx| ==> 0 <= idx[k] < |vs| && Filter(vs, term)[k] == vs[idx[k]])
      && (forall k, l :: 0 <= k < l < |idx| ==> idx[k] < idx[l])
      && (forall i :: 0 <= i < |vs| ==> (i in idx <==> Matches(vs[i], term)))
  {
    SelectAtIndices(vs, KeepFor(term));
  }

  /** The voucher is kept iff the lower-case term is a substring of the
      lower-case form of one of the four searched texts — and no other field
      of the voucher has any say. */
  lemma MatchesIffSubstring(v: Voucher, term: string)
    ensures Matches(v, term) <==>
      || IsSubstring(Lower(term), Lower(v.affiliate.fullName))
      || IsSubstring(Lower(term), Lower(v.affiliate.identityCard))
      || IsSubstring(Lower(term), Lower(IntToDecimal(v.depositNumber)))
      || IsSubstring(Lower(term), Lower(v.bank.name))
  {
    IntToDecimalChars(v.depositNumber);
  }

  /** Two vouchers that agree on the four searched texts are kept or dropped
      together, whatever their other fields hold. */
  lemma OnlySearchedFieldsMatter(v: Voucher, w: Voucher, term: string)
    requires v.affiliate.fullName == w.affiliate.fullName
    requires v.affiliate.identityCard == w.affiliate.identityCard
    requires v.depositNumber == w.depositNumber
    requires v.bank.name == w.bank.name
    ensures Matches(v, term) <==> Matches(w, term)
  {
  }

  /** An empty search keeps every voucher: the filter is the identity. */
  lemma FilterEmptyTerm(vs: seq<Voucher>)
    ensures Filter(vs, "") == vs
  {
    forall i | 0 <= i < |vs| ensures KeepFor("")(vs[i]) {
      EmptyIsSubstring(Lower(vs[i].affiliate.fullName));
    }
    SelectKeepsAllIff(vs, KeepFor(""));
  }

  /** Terms that differ only in letter case select the same vouchers. */
  lemma FilterIgnoresCase(vs: seq<Voucher>, t1: string, t2: string)
    requires SameUpToCase(t1, t2)
    ensures Filter(vs, t1) == Filter(vs, t2)
  {
    SameUpToCaseLower(t1, t2);
    SelectCongruent(vs, KeepFor(t1), KeepFor(t2));
  }

  /** Any piece of a voucher's deposit number, as written in decimal, finds
      that voucher (12345 is found by "234"). */
  lemma DepositNumberPieceMatches(v: Voucher, term: string)
    requires IsSubstring(term, IntToDecimal(v.depositNumber))
    ensures Matches(v, term)
  {
    var s := IntToDecimal(v.depositNumber);
    IntToDecimalChars(v.depositNumber);
    SubstringChars(term, s, c => !IsAsciiUpper(c));
    LowerOfNoUpper(term);
  }

  /** Any piece of the affiliate's identity card, in whatever letter case it
      is written there, finds the voucher. */
  lemma IdentityCardPieceMatches(v: Voucher, term: string)
    requires IsSubstring(term, v.affiliate.identityCard)
    ensures Matches(v, term)
  {
    SubstringLower(term, v.affiliate.identityCard);
  }

  /** A shorter term finds at least what a longer term containing it finds. */
  lemma KeepNarrowing(v: Voucher, t1: string, t2: string)
    requires IsSubstring(t1, t2)
    requires Matches(v, t2)
    ensures Matches(v, t1)
  {
    var q1, q2 := Lower(t1), Lower(t2);
    SubstringLower(t1, t2);
    forall s | IsSubstring(q2, s) ensures IsSubstring(q1, s) {
      SubstringTransitive(q1, q2, s);
    }
  }

  /** Typing more narrows the list: filtering the result for `t1` by a longer
      term `t2` that contains it is the same as filtering for `t2` directly,
      so every voucher kept for `t2` is also kept for `t1`, in the same order. */
  lemma FilterNarrowing(vs: seq<Voucher>, t1: string, t2: string)
    requires IsSubstring(t1, t2)
    ensures Filter(Filter(vs, t1), t2) == Filter(vs, t2)
  {
    forall i | 0 <= i < |vs| && KeepFor(t2)(vs[i]) ensures KeepFor(t1)(vs[i]) {
      KeepNarrowing(vs[i], t1, t2);
    }
    SelectNarrowing(vs, KeepFor(t1), KeepFor(t2));
  }

  /** The count shown as "Mostrando N registros": the number of rows the table
      receives. It never exceeds the number of vouchers, equals it exactly when
      every voucher matches (in particular for the empty term), and is zero
      exactly when none does. */
  function ShownCount(vs: seq<Voucher>, term: string): (n: nat)
    ensures n <= |vs|
    ensures n == |vs| <==> forall i :: 0 <= i < |vs| ==> Matches(vs[i], term)
    ensures n == 0 <==> forall i :: 0 <= i < |vs| ==> !Matches(vs[i], term)
    ensures term == "" ==> n == |vs|
  {
    SelectKeepsAllIff(vs, KeepFor(term));
    SelectNoneIff(vs, KeepFor(term));
    FilterEmptyTerm(vs);
    |Filter(vs, term)|
  }
}
