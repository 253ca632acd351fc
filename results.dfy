/** Option and Result types, and the exceptions the modelled .NET code can raise. */
module Results {

  datatype Option<+T> = None | Some(value: T)

  /** The .NET exceptions that the modelled members can throw. */
  datatype Exception =
    | ArgumentException          // CalculateLuhnChecksumDigit on a null or blank section
    | IndexOutOfRangeException   // ParseIdentityNumberStringToModel on fewer than 13 characters
    | FormatException            // Convert.ToInt32 on text that is not an integer

  datatype Result<+T> = Ok(value: T) | Err(error: Exception)
}
