/**
 * `validateForm`: the three checks of the memory form. Each field is checked
 * whatever the others gave, so every offending field gets its message at once.
 */
module Form {
  import opened Wrappers
  import opened Text

  const MaxTitle := 100
  const MaxDescription := 1000

  const TitleMissing := "Please enter a title"
  const TitleTooLong := "Title must be less than 100 characters"
  const DateMissing := "Please select a date"
  const DescriptionMissing := "Please enter a description"
  const DescriptionTooLong := "Description must be less than 1000 characters"

  /** The raw values of the form's inputs. */
  datatype FormFields = FormFields(title: string, date: string, description: string, tags: string)

  /** The inline message shown under each field (`showError`), `None` where the field was cleared (`clearError`). */
  datatype FormErrors = FormErrors(title: Option<string>, date: Option<string>, description: Option<string>)

  const NoErrors := FormErrors(None, None, None)

  /** The acceptance rule the form enforces. */
  predicate Acceptable(title: string, date: string, description: string)
  {
    && 0 < |Trim(title)| <= MaxTitle
    && date != ""
    && 0 < |Trim(description)| <= MaxDescription
  }

  method ValidateForm(titleInput: string, dateInput: string, descriptionInput: string)
    returns (isValid: bool, errors: FormErrors)
    ensures isValid <==> Acceptable(titleInput, dateInput, descriptionInput)
    ensures isValid <==> errors == NoErrors
    ensures errors.title.None? <==> 0 < |Trim(titleInput)| <= MaxTitle
    ensures errors.date.None? <==> dateInput != ""
    ensures errors.description.None? <==> 0 < |Trim(descriptionInput)| <= MaxDescription
    ensures errors.title.Some? ==> errors.title.value == if Trim(titleInput) == "" then TitleMissing else TitleTooLong
    ensures errors.date.Some? ==> errors.date.value == DateMissing
    ensures errors.description.Some? ==>
      errors.description.value == if Trim(descriptionInput) == "" then DescriptionMissing else DescriptionTooLong
  {
    isValid := true;
    var title := Trim(titleInput);
    var date := dateInput;
    var description := Trim(descriptionInput);
    var titleError, dateError, descriptionError := None, None, None;

    if title == "" {
      titleError := Some(TitleMissing);
      isValid := false;
    } else if |title| > MaxTitle {
      titleError := Some(TitleTooLong);
      isValid := false;
    }

    if date == "" {
      dateError := Some(DateMissing);
      isValid := false;
    }

    if description == "" {
      descriptionError := Some(DescriptionMissing);
      isValid := false;
    } else if |description| > MaxDescription {
      descriptionError := Some(DescriptionTooLong);
      isValid := false;
    }

    errors := FormErrors(titleError, dateError, descriptionError);
  }

  /** The title boundary: a trimmed 100-character title passes, 101 characters do not. */
  lemma TitleBoundary(title: string, date: string, description: string)
    requires Trimmed(title) && date != "" && 0 < |Trim(description)| <= MaxDescription
    ensures |title| == 100 ==> Acceptable(title, date, description)
    ensures |title| == 101 ==> !Acceptable(title, date, description)
  {
  }
}
