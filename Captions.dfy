/** The caption shown under a revealed card: the card's own message from cardMessages
    when the table has the file name as a key, otherwise the default message. */
module Captions {

  /** cardMessages. */
  const CardMessages: map<string, string> := map[
    "1.jpg" := "Happy birthday, amore! Let's celebrate together every year!",
    "4.jpg" := "SEXY!!!",
    "6.jpg" := "My Wednesday Amore",
    "10.jpg" := "Your boy friend has good taste!",
    "11.jpg" := "Same phone!!",
    "13.jpg" := "This is my favorite. You are so cute.",
    "21.jpg" := "Eat like the royal family in the movie Roman Holiday.",
    "22.jpg" := "A beautiful view and a beautiful lady.",
    "23.jpg" := "I love you so much; you are sooooo sexy.",
    "29.jpg" := "Amore with her friends.",
    "31.jpg" := "Wednesday!!",
    "35.jpg" := "Heart heart heart!",
    "37.jpg" := "Family trip!!",
    "40.jpg" := "I love the beautiful view and my beautiful amore.",
    "42.jpg" := "I miss you too.",
    "43.jpg" := "Very sexy and revealing, lol.",
    "44.JPEG" := "Amore, so confident and professional.",
    "45.JPEG" := "So elegant and professional!",
    "46.JPEG" := "My K-pop star, amore!",
    "47.JPEG" := "Amore, you are so stunning, like stars in the dark sky!!!!!!!"
  ]

  /** defaultMessage. */
  const DefaultMessage: string := "You are amazing"

  /** The caption of a card showing the given file. No message of the table is the
      default one, so the default is shown exactly for the files the table lacks. */
  function Caption(filename: string): (text: string)
    ensures text == DefaultMessage <==> filename !in CardMessages
    ensures filename in CardMessages ==> text == CardMessages[filename]
    ensures |text| > 0
  {
    if filename in CardMessages then CardMessages[filename] else DefaultMessage
  }

  /** A file with a table entry is captioned with that entry. */
  lemma CaptionOfListedFile()
    ensures Caption("37.jpg") == "Family trip!!"
  {
  }

  /** A file without a table entry is captioned with the default message. */
  lemma CaptionOfUnlistedFile()
    ensures Caption("12.jpg") == "You are amazing"
  {
  }
}
