/** The exceptions the tokenizer throws, as values. */
module Results {
  datatype Error =
    | InputError                 // TokenizerInputError
    | EncodingError              // TokenizerEncodingError
    | VocabularyFileError
    | TokenIDError
    | OutOfRange                 // std::out_of_range escaping from substr
    | ArgumentError              // std::invalid_argument escaping from stoi

  datatype Result<+T> = Ok(value: T) | Err(error: Error)
}
