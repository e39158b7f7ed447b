/** Static configuration of the backend that the tag logic reads. */
module Config {

  /** `STOP_WORDS`: words never suggested as tags. */
  const StopWords: set<string> := {
    "a", "an", "the", "is", "are", "was", "were", "be", "been", "being", "have", "has", "had",
    "do", "does", "did", "will", "would", "should", "can", "could", "may", "might", "must",
    "and", "but", "or", "nor", "for", "so", "yet", "if", "then", "else", "when", "where",
    "why", "how", "what", "which", "who", "whom", "whose", "this", "that", "these", "those",
    "i", "you", "he", "she", "it", "we", "they", "me", "him", "her", "us", "them", "my",
    "your", "his", "its", "our", "their", "mine", "yours", "hers", "ours", "theirs", "to",
    "of", "in", "on", "at", "by", "from", "with", "about", "above", "after", "again",
    "against", "all", "am", "as", "any", "around", "because", "before", "below", "between",
    "both", "during", "each", "few", "further", "here", "into", "just", "no", "not", "now",
    "once", "only", "other", "out", "over", "own", "same", "some", "such", "than", "too",
    "under", "until", "up", "very", "while", "through"
  }
}
