/** The contract of the delimiter walker (strwalk, memwalk of vendor/zwalker.c) that the
    router and the route filter read strings with.  A token keeps the delimiter that ended
    it; the rest after the last delimiter is a token too, unless it is empty. */
module Walker {

  datatype Token = Token(text: string, delimited: bool)
  {
    // The token without its delimiter.
    function Body(): string {
      if delimited && text != [] then text[..|text| - 1] else text
    }
  }

  function FirstDelimiter(data: string, delimiters: string): (i: nat)
    ensures i <= |data|
    ensures i < |data| ==> data[i] in delimiters
    ensures forall j :: 0 <= j < i ==> data[j] !in delimiters
  {
    if data == [] || data[0] in delimiters then 0 else 1 + FirstDelimiter(data[1..], delimiters)
  }

  function Tokens(data: string, delimiters: string): (ts: seq<Token>)
    ensures forall t <- ts :: t.text != []
    decreases |data|
  {
    if data == [] then []
    else
      var i := FirstDelimiter(data, delimiters);
      if i == |data| then [Token(data, false)]
      else [Token(data[..i + 1], true)] + Tokens(data[i + 1..], delimiters)
  }

  // Cutting what is left of the data at i cuts the data there.
  lemma CutTail(data: string, pos: nat, i: nat)
    requires pos <= i <= |data|
    ensures data[pos..][..i - pos] == data[pos..i] && data[pos..][i - pos..] == data[i..]
  {
  }
}
