/** The kind of a GGUF file, as its name marks it. */
module NameType {
  /** The suffixes that mark an adapter and a vocabulary-only file. */
  const TYPE_LORA: string := "-LoRA"
  const TYPE_VOCAB: string := "-vocab"

  datatype Type = Default | LoRA | Vocab

  /** `Display for Type`: nothing for a plain model, else the suffix the parser strips. */
  function Display(t: Type): (s: string)
    ensures t == Default <==> s == ""
    ensures t == LoRA <==> s == TYPE_LORA
    ensures t == Vocab <==> s == TYPE_VOCAB
  {
    match t
    case Default => ""
    case LoRA => TYPE_LORA
    case Vocab => TYPE_VOCAB
  }
}
