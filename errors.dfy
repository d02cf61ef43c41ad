/** The exceptions the allocation engine, its twin and the parser raise. */
module Errors {

  /** The Python exception class a failure surfaces as. */
  datatype ExceptionClass = ValueError | ArithmeticError | ZeroDivisionError | IndexError

  /** One variant per `raise` (or implicit fault) of the modelled code; the
      payload carries what the source puts into the message. */
  datatype Error =
    | NoNeighborhoods                                        // "No neighborhoods added"
    | NotDivisible(buyers: nat, neighborhoods: nat, raisedAs: ExceptionClass)
    | DivisionByZero                                         // len(...) / 0
    | UnknownNeighborhood(name: string)                      // "No neighborhood called ..."
    | PreferenceIndex(buyer: string, index: nat)             // preferences[index] out of range
    | MissingVectorValues(tokens: seq<string>)               // "Missing Vectors Values: ..."
    | VectorsRequired(tokens: seq<string>)                   // "We require 3 vectors E,W,R ..."
    | InvalidNeighborhoodFormat(text: string)                // "Invalid neighborhood format ..."
    | InvalidHomeBuyerFormat(text: string)                   // "Invalid home buyer format ..."
  {
    /** The class of the exception the source raises for this failure. */
    function Class(): ExceptionClass
    {
      match this
      case NotDivisible(_, _, cls) => cls
      case DivisionByZero => ZeroDivisionError
      case PreferenceIndex(_, _) => IndexError
      case _ => ValueError
    }
  }
}
