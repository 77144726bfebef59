/**
 * Parts with extension objects. A part (a piece or an assembly of parts)
 * carries a dictionary of extensions keyed by extension type; the explosion
 * and cromulent reports of an assembly look up the same kind of extension on
 * each of its parts, in order, and fail at the first part that lacks one.
 *
 * An extension is bound to the part whose dictionary holds it, as the
 * factories arrange; the piece or assembly flavour of an extension class
 * follows from that part, so an extension value records only its kind.
 * Prices are modelled as integers.
 */
module PartExtensions {
  import opened Wrappers
  import opened Strings

  /** The two report-producing kinds of extension. */
  datatype Kind = Explosion | Cromulent

  /**
   * What a part's dictionary holds under a key: an explosion extension
   * (`PiecePartExplosionExtension` or `AssemblyExplosionExtension`), a
   * cromulent one, or some other object with the given `extensionType`.
   */
  datatype PartExtension = KindExtension(kind: Kind) | OtherExtension(extensionType: string)

  datatype Part =
    | PiecePart(pieceType: string, name: string, price: int, partExtensionsMap: map<string, PartExtension>)
    | Assembly(parts: seq<Part>, name: string, price: int, partExtensionsMap: map<string, PartExtension>)

  /** The key each kind is stored under and its `extensionType`. */
  function KindKey(kind: Kind): string
  {
    match kind
    case Explosion => "explosion"
    case Cromulent => "cromulent"
  }

  function MissingMessage(kind: Kind): string
  {
    match kind
    case Explosion => "Part does not have an explosion extension"
    case Cromulent => "Part does not have a cromulent extension"
  }

  function WrongClassMessage(kind: Kind): string
  {
    match kind
    case Explosion => "Part extension is not an explosion extension"
    case Cromulent => "Part extension is not a cromulent extension"
  }

  const UnknownExtensionMessage: string := "Unknown extension type"

  function DigitsText(n: nat): (s: string)
    ensures |s| > 0 && forall i :: 0 <= i < |s| ==> '0' <= s[i] <= '9'
  {
    var d := ['0' + (n % 10) as char];
    if n < 10 then d else DigitsText(n / 10) + d
  }

  /** The value of a string of decimal digits, most significant first. */
  function DigitsValue(s: string): (n: nat)
    requires forall i :: 0 <= i < |s| ==> '0' <= s[i] <= '9'
  {
    if s == [] then 0 else DigitsValue(s[..|s| - 1]) * 10 + (s[|s| - 1] - '0') as nat
  }

  /** Reading the digits back gives the number. */
  lemma {:induction false} DigitsRoundTrip(n: nat)
    ensures DigitsValue(DigitsText(n)) == n
    decreases n
  {
    var d := ['0' + (n % 10) as char];
    if n >= 10 {
      var t := DigitsText(n / 10);
      DigitsRoundTrip(n / 10);
      assert DigitsText(n) == t + d;
      assert (t + d)[..|t + d| - 1] == t;
    }
  }

  /** The integer a price text stands for: an optional minus sign, then decimal digits. */
  function PriceValue(s: string): int
    requires |s| > 0 && forall i :: (if s[0] == '-' then 1 else 0) <= i < |s| ==> '0' <= s[i] <= '9'
  {
    if s[0] == '-' then -(DigitsValue(s[1..]) as int) else DigitsValue(s)
  }

  /** An integer price as a template literal renders it: a minus sign exactly for a negative price, then digits. */
  function PriceText(price: int): (r: string)
    ensures |r| > 0 && (r[0] == '-' <==> price < 0)
    ensures forall i :: (if price < 0 then 1 else 0) <= i < |r| ==> '0' <= r[i] <= '9'
  {
    if price < 0 then "-" + DigitsText(-price) else DigitsText(price)
  }

  /** The rendered price reads back as the price. */
  lemma PriceRoundTrip(price: int)
    ensures PriceValue(PriceText(price)) == price
  {
    if price < 0 {
      assert PriceText(price)[1..] == DigitsText(-price);
      DigitsRoundTrip(-price);
    } else {
      DigitsRoundTrip(price);
    }
  }

  const ExplosionPiecePrefix: string := "Piece explosion report: "
  const CromulentPiecePrefix: string := "Cromulent piece named "

  /**
   * The report of a piece: `createExplosionReport` names the piece, its
   * piece type and, last, its price after a dollar sign; `cromulentize`
   * names the piece.
   */
  function PieceReport(kind: Kind, pieceType: string, name: string, price: int): (r: string)
    ensures kind == Explosion ==>
      var tail := " at $" + PriceText(price);
      |r| >= |ExplosionPiecePrefix| + |name| + |tail| &&
      r[..|ExplosionPiecePrefix|] == ExplosionPiecePrefix &&
      r[|ExplosionPiecePrefix|..|ExplosionPiecePrefix| + |name|] == name &&
      r[|r| - |tail|..] == tail
    ensures kind == Cromulent ==>
      |r| == |CromulentPiecePrefix| + |name| && r[..|CromulentPiecePrefix|] == CromulentPiecePrefix &&
      r[|CromulentPiecePrefix|..] == name
  {
    match kind
    case Explosion =>
      var x1 := ExplosionPiecePrefix + name;
      var x3 := x1 + ". For part " + pieceType;
      var tail := " at $" + PriceText(price);
      AppendParts(ExplosionPiecePrefix, name);
      PrefixKept(x1, ". For part ", |x1|);
      PrefixKept(x1 + ". For part ", pieceType, |x1|);
      PrefixKept(x3, tail, |x1|);
      AppendParts(x3, tail);
      SeqAssoc(x3, " at $", PriceText(price));
      x3 + " at $" + PriceText(price)
    case Cromulent =>
      AppendParts(CromulentPiecePrefix, name);
      CromulentPiecePrefix + name
  }

  /** The report's prefix for an assembly of each kind. */
  function AssemblyPrefix(kind: Kind): string
  {
    match kind
    case Explosion => "Explosion report for assembly: "
    case Cromulent => "Cromulent assembly: "
  }

  /** The first line of an assembly's report: the kind's prefix, the name, ".", then the line break. */
  function AssemblyHeader(kind: Kind, name: string): (r: string)
    ensures |r| == |AssemblyPrefix(kind)| + |name| + 2
    ensures r[..|AssemblyPrefix(kind)|] == AssemblyPrefix(kind) && r[|AssemblyPrefix(kind)|..|r| - 2] == name
    ensures r[|r| - 2..] == ".\n"
  {
    AssemblyPrefix(kind) + name + ".\n"
  }

  /** The report of `kind` of a part holding an extension of that kind, or the first error its parts raise. */
  function Report(kind: Kind, p: Part): (r: Result<string>)
    decreases p, 1
    ensures r.Success? && p.PiecePart? ==> r.value == PieceReport(kind, p.pieceType, p.name, p.price)
    ensures r.Success? && p.Assembly? ==>
      var h := AssemblyHeader(kind, p.name); |r.value| >= |h| && r.value[..|h|] == h
  {
    match p
    case PiecePart(pieceType, name, price, _) => Success(PieceReport(kind, pieceType, name, price))
    case Assembly(parts, name, _, _) =>
      var reports := PartsReports(kind, parts);
      if reports.Failure? then Failure(reports.message)
      else Success(AssemblyHeader(kind, name) + Join(reports.value, "\n"))
  }

  /** The `map` over an assembly's parts: each part's extension of `kind`, checked, then its report; the first error ends it. */
  function PartsReports(kind: Kind, parts: seq<Part>): (r: Result<seq<string>>)
    decreases parts, 0
    ensures r.Success? ==> |r.value| == |parts|
    ensures r.Success? ==> forall i :: 0 <= i < |parts| ==> Report(kind, parts[i]) == Success(r.value[i])
  {
    if parts == [] then Success([])
    else
      var p := parts[0];
      if KindKey(kind) !in p.partExtensionsMap then Failure(MissingMessage(kind))
      else if p.partExtensionsMap[KindKey(kind)] != KindExtension(kind) then Failure(WrongClassMessage(kind))
      else
        var first := Report(kind, p);
        if first.Failure? then Failure(first.message)
        else
          var rest := PartsReports(kind, parts[1..]);
          if rest.Failure? then rest
          else
            assert forall i :: 1 <= i < |parts| ==> parts[i] == parts[1..][i - 1];
            Success([first.value] + rest.value)
  }

  /** A part holds an extension of `kind` under that kind's key. */
  predicate HasExtension(kind: Kind, p: Part)
  {
    KindKey(kind) in p.partExtensionsMap && p.partExtensionsMap[KindKey(kind)] == KindExtension(kind)
  }

  /** Every part inside `p`, at every depth, holds an extension of `kind`. */
  predicate Reportable(kind: Kind, p: Part)
    decreases p
  {
    p.Assembly? ==> forall i :: 0 <= i < |p.parts| ==> HasExtension(kind, p.parts[i]) && Reportable(kind, p.parts[i])
  }

  /** A report succeeds exactly when every part inside, at every depth, has the right extension. */
  lemma {:induction false} ReportSucceeds(kind: Kind, p: Part)
    ensures Report(kind, p).Success? <==> Reportable(kind, p)
    decreases p, 1
  {
    if p.Assembly? {
      PartsReportsSucceed(kind, p.parts);
    }
  }

  lemma {:induction false} PartsReportsSucceed(kind: Kind, parts: seq<Part>)
    ensures PartsReports(kind, parts).Success? <==>
      forall i :: 0 <= i < |parts| ==> HasExtension(kind, parts[i]) && Reportable(kind, parts[i])
    decreases parts, 0
  {
    if parts != [] {
      var p, rest := parts[0], parts[1..];
      ReportSucceeds(kind, p);
      PartsReportsSucceed(kind, rest);
      assert PartsReports(kind, parts).Success? <==>
        HasExtension(kind, p) && Report(kind, p).Success? && PartsReports(kind, rest).Success?;
      if PartsReports(kind, parts).Success? {
        forall i | 0 <= i < |parts| ensures HasExtension(kind, parts[i]) && Reportable(kind, parts[i]) {
          if i > 0 {
            assert parts[i] == rest[i - 1];
          }
        }
      }
      if forall i :: 0 <= i < |parts| ==> HasExtension(kind, parts[i]) && Reportable(kind, parts[i]) {
        forall i | 0 <= i < |rest| ensures HasExtension(kind, rest[i]) && Reportable(kind, rest[i]) {
          assert rest[i] == parts[i + 1];
        }
      }
    }
  }

  /** A failed report carries one of the two messages of its kind. */
  lemma {:induction false} ReportErrors(kind: Kind, p: Part)
    ensures Report(kind, p).Failure? ==>
      Report(kind, p).message == MissingMessage(kind) || Report(kind, p).message == WrongClassMessage(kind)
    decreases p, 1
  {
    if p.Assembly? {
      PartsReportsErrors(kind, p.parts);
    }
  }

  lemma {:induction false} PartsReportsErrors(kind: Kind, parts: seq<Part>)
    ensures PartsReports(kind, parts).Failure? ==>
      PartsReports(kind, parts).message == MissingMessage(kind) ||
      PartsReports(kind, parts).message == WrongClassMessage(kind)
    decreases parts, 0
  {
    if parts != [] {
      ReportErrors(kind, parts[0]);
      PartsReportsErrors(kind, parts[1..]);
    }
  }

  /** Which part class `createPartWithExtension` builds. */
  datatype PartType = Piece | AssemblyType

  /** `createPartExtension`: the extension of the requested kind for the part, or an error for any other type. */
  function CreatePartExtension(part: Part, extensionType: string): (r: Result<PartExtension>)
    ensures r.Success? <==> extensionType == "explosion" || extensionType == "cromulent"
    ensures r.Success? ==> r.value.KindExtension? && KindKey(r.value.kind) == extensionType
    ensures r.Failure? ==> r.message == UnknownExtensionMessage
  {
    if extensionType == "explosion" then Success(KindExtension(Explosion))
    else if extensionType == "cromulent" then Success(KindExtension(Cromulent))
    else Failure(UnknownExtensionMessage)
  }

  /** `createPartWithExtension`: a new piece (of piece type "piece") or empty assembly holding one extension. */
  function CreatePartWithExtension(partType: PartType, name: string, price: int, extensionType: string): (r: Result<Part>)
    ensures r.Success? <==> extensionType == "explosion" || extensionType == "cromulent"
    ensures r.Failure? ==> r.message == UnknownExtensionMessage
    ensures r.Success? ==> (r.value.name == name && r.value.price == price &&
      r.value.PiecePart? == (partType == Piece) &&
      r.value.partExtensionsMap.Keys == {extensionType})
  {
    var part := if partType == Piece then PiecePart("piece", name, price, map[]) else Assembly([], name, price, map[]);
    var extension := CreatePartExtension(part, extensionType);
    if extension.Failure? then Failure(extension.message)
    else Success(part.(partExtensionsMap := part.partExtensionsMap[extensionType := extension.value]))
  }

  /** A created part reports through the extension it was created with, and an assembly starts with an empty list of parts. */
  lemma CreatedPartReports(partType: PartType, name: string, price: int, kind: Kind)
    ensures var r := CreatePartWithExtension(partType, name, price, KindKey(kind));
      r.Success? && HasExtension(kind, r.value) &&
      Report(kind, r.value) == Success(
        if partType == Piece then PieceReport(kind, "piece", name, price) else AssemblyHeader(kind, name))
  {
    var r := CreatePartWithExtension(partType, name, price, KindKey(kind));
    if partType != Piece {
      assert PartsReports(kind, r.value.parts) == Success([]);
      assert AssemblyHeader(kind, name) + Join([], "\n") == AssemblyHeader(kind, name);
    }
  }

  /** An assembly of parts that each hold an extension of `kind` reports the header and then each part's report, one per line. */
  lemma {:induction false} AssemblyReport(kind: Kind, parts: seq<Part>, name: string, price: int,
                                          extensions: map<string, PartExtension>)
    requires forall i :: 0 <= i < |parts| ==> HasExtension(kind, parts[i]) && Reportable(kind, parts[i])
    ensures var r := Report(kind, Assembly(parts, name, price, extensions));
      r.Success? && exists reports: seq<string> ::
        |reports| == |parts| &&
        (forall i :: 0 <= i < |parts| ==> Report(kind, parts[i]) == Success(reports[i])) &&
        r.value == AssemblyHeader(kind, name) + Join(reports, "\n")
  {
    PartsReportsSucceed(kind, parts);
    var reports := PartsReports(kind, parts).value;
    assert |reports| == |parts|;
  }
}
