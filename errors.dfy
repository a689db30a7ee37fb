/** Error codes of the library and the result type its operations return.
    The C library keeps the code of the most recent operation in a global
    (`raff_errorNum`); here every operation returns it instead. */
module RiffErrors {

  /** raff_Error: the six codes the library can report. */
  datatype Error = NoError | NotList | IsList | NotRiff | Corrupt | CantOpen

  datatype Option<+T> = None | Some(value: T)

  datatype Result<+T> = Ok(value: T) | Err(error: Error)

  /** raff_errorMsg: the fixed message of each code. */
  function ErrorMsg(e: Error): (msg: string)
    ensures |msg| > 0
    ensures e == NoError <==> msg == "Success"
  {
    match e
    case NoError => "Success"
    case NotList => "Requested list form from data chunk"
    case IsList => "Requested data form from list chunk"
    case NotRiff => "File does not begin with a RAFF chunk"
    case Corrupt => "Invalid or corrup formatting"
    case CantOpen => "Couldn't open file"
  }

  /** Distinct codes have distinct messages, so the message identifies the code. */
  lemma ErrorMsgInjective(e1: Error, e2: Error)
    ensures ErrorMsg(e1) == ErrorMsg(e2) ==> e1 == e2
  {
  }
}
