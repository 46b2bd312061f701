/** The spans of common/sub_string.cpp: as values, and as the object the source keeps. */
module SubString {
  import opened Wrappers

  datatype SubString = SubString(begin: nat, end: nat, length: nat)

  const EMPTY := SubString(0, 0, 0)

  /** A span from `begin` to `end`; an `end` of zero means an empty span. The source asserts the order. */
  function Set(begin: nat, end: nat): (s: SubString)
    requires end == 0 || begin <= end
  {
    var e := if end == 0 then begin else end;
    SubString(begin, e, e - begin)
  }

  predicate Nonempty(s: SubString) { s.length > 0 }

  ghost predicate InBounds(s: SubString, size: nat) {
    s.begin <= s.end <= size && s.length == s.end - s.begin
  }

  /** A piece of a span, a `length` of zero standing for the span's own; None when it would begin past the source. */
  function Substr(s: SubString, source: string, offset: nat, length: nat): Option<string> {
    var from := s.begin + offset;
    if from > |source| then None
    else
      var wanted := if length == 0 then s.length else length;
      var length' := if from + wanted > |source| then |source| - from else wanted;
      Some(source[from..from + length'])
  }

  function Str(s: SubString, source: string): Option<string> { Substr(s, source, 0, 0) }

  /** The string of a span within the source is the slice between its ends. */
  lemma StrIsSlice(s: SubString, source: string)
    requires InBounds(s, |source|)
    ensures Str(s, source) == Some(source[s.begin..s.end])
  {
    assert s.begin + s.length == s.end;
  }

  /** A piece exists exactly when it would begin within the source, and is then as long as asked for or available. */
  lemma SubstrIsPiece(s: SubString, source: string, offset: nat, length: nat)
    ensures var r, from := Substr(s, source, offset, length), s.begin + offset;
            && (r.None? <==> |source| < from)
            && (r.Some? ==> r.value <= source[from..])
            && (r.Some? && length > 0 ==> |r.value| == length || (|r.value| < length && r.value == source[from..]))
            && (r.Some? && length == 0 ==> |r.value| == s.length || (|r.value| < s.length && r.value == source[from..]))
  {
  }

  class Span {
    var begin: nat
    var end: nat
    var length: nat

    constructor ()
      ensures Value() == EMPTY
    {
      begin, end, length := 0, 0, 0;
    }

    function Value(): SubString
      reads this
    {
      SubString(begin, end, length)
    }

    method Set(from: nat, upto: nat)
      requires upto == 0 || from <= upto
      modifies this
      ensures begin == from && end == (if upto == 0 then from else upto) && length == end - begin
    {
      var last := upto;
      if last == 0 {
        last := from;
      }
      length := last - from;
      begin := from;
      end := last;
    }
  }
}
